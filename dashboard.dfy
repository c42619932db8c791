/** components/dashboard/dashboard.tsx: the metric cards, the two pie-chart
    data sets and the list of most recent tasks, all computed from the task
    list and the current time. */
module Dashboard {
  import opened Common
  import opened Entities
  import opened Sorting
  import opened Utils

  function HasStatus(s: TaskStatus): Task -> bool {
    (t: Task) => t.status == s
  }

  function HasPriority(p: TaskPriority): Task -> bool {
    (t: Task) => t.priority == p
  }

  function IsOpen(t: Task): bool {
    t.status != Completed
  }

  function AnyTask(t: Task): bool {
    true
  }

  /** The numbers on the four metric cards. */
  datatype Metrics = Metrics(
    total: nat,
    completed: nat,
    pending: nat,
    inProgress: nat,
    overdue: nat,
    dueToday: nat,
    completionRate: nat)

  /** Every task has exactly one of the three statuses. */
  lemma StatusCountsPartition(tasks: seq<Task>)
    ensures Count(tasks, HasStatus(Pending)) + Count(tasks, HasStatus(InProgress)) + Count(tasks, HasStatus(Completed))
            == |tasks|
  {
    CountSplit(tasks, HasStatus(Pending), HasStatus(InProgress), IsOpen);
    CountSplit(tasks, IsOpen, HasStatus(Completed), AnyTask);
    FilterAll(tasks, AnyTask);
  }

  /** Every task has exactly one of the three priorities. */
  lemma PriorityCountsPartition(tasks: seq<Task>)
    ensures Count(tasks, HasPriority(High)) + Count(tasks, HasPriority(Medium)) + Count(tasks, HasPriority(Low))
            == |tasks|
  {
    var highOrMedium := (t: Task) => t.priority != Low;
    CountSplit(tasks, HasPriority(High), HasPriority(Medium), highOrMedium);
    CountSplit(tasks, highOrMedium, HasPriority(Low), AnyTask);
    FilterAll(tasks, AnyTask);
  }

  /** The metric counts and the completion rate. The status counts split
      the total; overdue and due-today tasks are all open. */
  function ComputeMetrics(tasks: seq<Task>, now: int): (m: Metrics)
    ensures m.total == |tasks|
    ensures m.pending + m.inProgress + m.completed == m.total
    ensures m.overdue <= m.pending + m.inProgress && m.dueToday <= m.pending + m.inProgress
    ensures m.completionRate <= 100
    ensures m.total == 0 ==> m.completionRate == 0
    ensures 0 < m.completed == m.total ==> m.completionRate == 100
  {
    StatusCountsPartition(tasks);
    CountSplit(tasks, HasStatus(Pending), HasStatus(InProgress), IsOpen);
    CountMonotone(tasks, (t: Task) => IsOverdue(t, now), IsOpen);
    CountMonotone(tasks, (t: Task) => IsDueToday(t, now), IsOpen);
    var completed := Count(tasks, HasStatus(Completed));
    Metrics(
      |tasks|,
      completed,
      Count(tasks, HasStatus(Pending)),
      Count(tasks, HasStatus(InProgress)),
      Count(tasks, (t: Task) => IsOverdue(t, now)),
      Count(tasks, (t: Task) => IsDueToday(t, now)),
      Rate(completed, |tasks|))
  }

  /** The colour hint of a metric card. */
  datatype Trend = Positive | Neutral | Negative | Warning

  /** The total-tasks card: positive from 70%, neutral from 40%, negative below. */
  function RateTrend(rate: int): (tr: Trend)
    ensures tr == Positive <==> rate >= 70
    ensures tr == Neutral <==> 40 <= rate < 70
    ensures tr == Negative <==> rate < 40
  {
    if rate >= 70 then Positive else if rate >= 40 then Neutral else Negative
  }

  function TrendRank(tr: Trend): nat {
    match tr
    case Negative => 0
    case Neutral => 1
    case Positive => 2
    case Warning => 0
  }

  /** A higher completion rate never gives a worse trend. */
  lemma RateTrendMonotone(a: int, b: int)
    requires a <= b
    ensures TrendRank(RateTrend(a)) <= TrendRank(RateTrend(b))
  {
  }

  /** The due-today card warns exactly when something is due today. */
  function DueTodayTrend(dueToday: nat): (tr: Trend)
    ensures tr == Warning <==> dueToday > 0
    ensures tr != Warning ==> tr == Positive
  {
    if dueToday > 0 then Warning else Positive
  }

  /** The overdue card is negative exactly when something is overdue. */
  function OverdueTrend(overdue: nat): (tr: Trend)
    ensures tr == Negative <==> overdue > 0
    ensures tr != Negative ==> tr == Positive
  {
    if overdue > 0 then Negative else Positive
  }

  /** One slice of a pie chart; `nameKey` is the translation key of its name. */
  datatype ChartItem = ChartItem(nameKey: string, value: nat, color: string)

  function Total(items: seq<ChartItem>): nat {
    if items == [] then 0 else items[0].value + Total(items[1..])
  }

  function HasValue(item: ChartItem): bool {
    item.value > 0
  }

  /** Dropping the empty slices does not change the total. */
  lemma {:induction false} TotalOfNonEmpty(items: seq<ChartItem>)
    ensures Total(Filter(items, HasValue)) == Total(items)
  {
    if items != [] {
      TotalOfNonEmpty(items[1..]);
      if HasValue(items[0]) {
        assert ([items[0]] + Filter(items[1..], HasValue))[1..] == Filter(items[1..], HasValue);
      }
    }
  }

  /** `.filter(item => item.value > 0)` on chart data. */
  function NonEmptySlices(all: seq<ChartItem>): (items: seq<ChartItem>)
    ensures |items| <= |all|
    ensures forall i :: 0 <= i < |items| ==> items[i].value > 0
    ensures Total(items) == Total(all)
  {
    TotalOfNonEmpty(all);
    Filter(all, HasValue)
  }

  lemma Total3(all: seq<ChartItem>)
    requires |all| == 3
    ensures Total(all) == all[0].value + all[1].value + all[2].value
  {
    assert all[1..][1..] == [all[2]];
    assert Total([all[2]]) == all[2].value + Total([all[2]][1..]);
    assert Total(all[1..]) == all[1].value + Total(all[1..][1..]);
  }

  /** `statusData`: pending, in progress and completed, without empty slices. */
  function StatusData(tasks: seq<Task>): (items: seq<ChartItem>)
    ensures |items| <= 3
    ensures forall i :: 0 <= i < |items| ==> items[i].value > 0
    ensures Total(items) == |tasks|
  {
    var all := [
      ChartItem("pending", Count(tasks, HasStatus(Pending)), "#3B82F6"),
      ChartItem("in_progress", Count(tasks, HasStatus(InProgress)), "#10B981"),
      ChartItem("completed", Count(tasks, HasStatus(Completed)), "#6366F1")];
    StatusCountsPartition(tasks);
    assert Total(all) == |tasks| by { Total3(all); }
    NonEmptySlices(all)
  }

  /** `priorityData`: high, medium and low, without empty slices. */
  function PriorityData(tasks: seq<Task>): (items: seq<ChartItem>)
    ensures |items| <= 3
    ensures forall i :: 0 <= i < |items| ==> items[i].value > 0
    ensures Total(items) == |tasks|
  {
    var all := [
      ChartItem("high", Count(tasks, HasPriority(High)), "#EF4444"),
      ChartItem("medium", Count(tasks, HasPriority(Medium)), "#F59E0B"),
      ChartItem("low", Count(tasks, HasPriority(Low)), "#3B82F6")];
    PriorityCountsPartition(tasks);
    assert Total(all) == |tasks| by { Total3(all); }
    NonEmptySlices(all)
  }

  /** The comparator `b.createdAt - a.createdAt` and its key. */
  function NewestFirst(a: Task, b: Task): int {
    b.createdAt - a.createdAt
  }

  function NewestKey(t: Task): int {
    -t.createdAt
  }

  /** `recentTasks`: a sorted copy cut to its first five. */
  function RecentTasks(tasks: seq<Task>): (r: seq<Task>)
    ensures |r| == if |tasks| < 5 then |tasks| else 5
    ensures multiset(r) <= multiset(tasks)
  {
    var sorted := Sort(tasks, NewestFirst);
    var k := if |tasks| < 5 then |tasks| else 5;
    assert sorted == sorted[..k] + sorted[k..];
    sorted[..k]
  }

  /** The recent list is ordered newest first, and no task left out of it
      is newer than any task in it. */
  lemma RecentTasksAreNewest(tasks: seq<Task>)
    ensures forall i, j :: 0 <= i < j < |RecentTasks(tasks)| ==>
              RecentTasks(tasks)[i].createdAt >= RecentTasks(tasks)[j].createdAt
    ensures forall x, i :: x in tasks && x !in RecentTasks(tasks) && 0 <= i < |RecentTasks(tasks)| ==>
              x.createdAt <= RecentTasks(tasks)[i].createdAt
  {
    var sorted := Sort(tasks, NewestFirst);
    assert IsKeyComparator(NewestFirst, NewestKey);
    SortSortedByKey(tasks, NewestFirst, NewestKey);
    var r := RecentTasks(tasks);
    assert r == sorted[..|r|];
    PrefixHasLeastKeys(sorted, |r|, NewestKey);
    forall x | x in tasks
      ensures x in sorted
    {
      assert x in multiset(sorted);
    }
  }
}
