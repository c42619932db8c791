/** components/achievements/achievements.tsx: completion counts and rates,
    the current and longest streaks of days on which tasks were completed,
    and the five-level achievement scale with its progress bar. A task counts
    as completed on the calendar day of its `updatedAt`. */
module Achievements {
  import opened Common
  import opened Entities
  import opened Sorting

  predicate IsCompleted(t: Task) {
    t.status == Completed
  }

  /** Completed, with a due date not before the completion time. */
  predicate CompletedOnTime(t: Task) {
    t.status == Completed && t.dueDate.Some? && t.dueDate.value >= t.updatedAt
  }

  /** Completed after its due date had passed ("overdue tasks managed"). */
  predicate CompletedLate(t: Task) {
    t.status == Completed && t.dueDate.Some? && t.dueDate.value < t.updatedAt
  }

  predicate CompletedWithDueDate(t: Task) {
    t.status == Completed && t.dueDate.Some?
  }

  /** On-time and late completions split the completed tasks that have a due
      date; completed tasks without one are in neither. */
  lemma CompletionPartition(tasks: seq<Task>)
    ensures Count(tasks, CompletedOnTime) + Count(tasks, CompletedLate) == Count(tasks, CompletedWithDueDate)
    ensures Count(tasks, CompletedWithDueDate) <= Count(tasks, IsCompleted) <= |tasks|
  {
    CountSplit(tasks, CompletedOnTime, CompletedLate, CompletedWithDueDate);
    CountMonotone(tasks, CompletedWithDueDate, IsCompleted);
  }

  /** `completionRate`: completed tasks as a rounded percentage of all tasks. */
  function CompletionRate(tasks: seq<Task>): (r: nat)
    ensures r <= 100
    ensures tasks == [] ==> r == 0
    ensures tasks != [] && Count(tasks, IsCompleted) == |tasks| ==> r == 100
    ensures Count(tasks, IsCompleted) == 0 ==> r == 0
  {
    Rate(Count(tasks, IsCompleted), |tasks|)
  }

  /** `onTimeRate`: on-time completions as a rounded percentage of the
      completed tasks. */
  function OnTimeRate(tasks: seq<Task>): (r: nat)
    ensures r <= 100
    ensures Count(tasks, IsCompleted) == 0 ==> r == 0
  {
    CompletionPartition(tasks);
    Rate(Count(tasks, CompletedOnTime), Count(tasks, IsCompleted))
  }

  /** The predicate "completed on day `d`". */
  function CompletedOnDay(d: int): Task -> bool {
    (t: Task) => t.status == Completed && DayOf(t.updatedAt) == d
  }

  /** `completedTasksByDate[d]`: the tasks completed on day `d`, in list order. */
  function CompletedOn(tasks: seq<Task>, d: int): seq<Task> {
    Filter(tasks, CompletedOnDay(d))
  }

  /** `byDate` is `completedTasksByDate` for `tasks`: a day is a key
      exactly when some task was completed on it, and its entry lists those
      tasks in order. */
  ghost predicate GroupsCompleted(byDate: map<int, seq<Task>>, tasks: seq<Task>) {
    && (forall d :: d in byDate <==> CompletedOn(tasks, d) != [])
    && (forall d :: d in byDate ==> byDate[d] == CompletedOn(tasks, d))
  }

  /** One step of the grouping loop: appending task `t` to the scanned
      prefix `pre` turns a correct grouping of `pre` into one of `pre + [t]`. */
  lemma GroupStep(byDate: map<int, seq<Task>>, next: map<int, seq<Task>>, pre: seq<Task>, t: Task)
    requires GroupsCompleted(byDate, pre)
    requires t.status != Completed ==> next == byDate
    requires t.status == Completed ==>
               var date := DayOf(t.updatedAt);
               next == byDate[date := (if date in byDate then byDate[date] else []) + [t]]
    ensures GroupsCompleted(next, pre + [t])
  {
    forall d
      ensures d in next <==> CompletedOn(pre + [t], d) != []
      ensures d in next ==> next[d] == CompletedOn(pre + [t], d)
    {
      FilterAppend(pre, [t], CompletedOnDay(d));
      assert CompletedOn([t], d) == if CompletedOnDay(d)(t) then [t] else [];
    }
  }

  /** The next prefix is the previous one with one more element. */
  lemma PrefixStep<T>(s: seq<T>, i: nat)
    requires i < |s|
    ensures s[..i + 1] == s[..i] + [s[i]]
  {
  }

  /** The loop body of the grouping: a completed task is pushed onto its
      day's entry, which is created (and its key recorded) on first use. */
  method AddCompleted(byDate: map<int, seq<Task>>, keys: seq<int>, t: Task)
    returns (next: map<int, seq<Task>>, nextKeys: seq<int>)
    requires forall d :: d in keys <==> d in byDate
    requires Distinct(keys)
    ensures t.status != Completed ==> next == byDate
    ensures t.status == Completed ==>
              var date := DayOf(t.updatedAt);
              next == byDate[date := (if date in byDate then byDate[date] else []) + [t]]
    ensures forall d :: d in nextKeys <==> d in next
    ensures Distinct(nextKeys)
  {
    next, nextKeys := byDate, keys;
    if t.status == Completed {
      var date := DayOf(t.updatedAt);
      if date !in next {
        next := next[date := []];
        nextKeys := nextKeys + [date];
      }
      next := next[date := next[date] + [t]];
    }
  }

  /** Builds `completedTasksByDate`: a day is a key exactly when some task
      was completed on it, and its entry lists those tasks in order. `keys`
      is `Object.keys(...)`: every key once, in order of first insertion. */
  method GroupCompletedByDate(tasks: seq<Task>) returns (byDate: map<int, seq<Task>>, keys: seq<int>)
    ensures GroupsCompleted(byDate, tasks)
    ensures forall d :: d in keys <==> d in byDate
    ensures Distinct(keys)
  {
    byDate, keys := map[], [];
    for i := 0 to |tasks|
      invariant GroupsCompleted(byDate, tasks[..i])
      invariant forall d :: d in keys <==> d in byDate
      invariant Distinct(keys)
    {
      var next, nextKeys := AddCompleted(byDate, keys, tasks[i]);
      GroupStep(byDate, next, tasks[..i], tasks[i]);
      PrefixStep(tasks, i);
      byDate, keys := next, nextKeys;
    }
    GroupsWholeList(byDate, tasks);
  }

  /** The grouping of the full prefix is the grouping of the list. */
  lemma GroupsWholeList(byDate: map<int, seq<Task>>, tasks: seq<Task>)
    requires GroupsCompleted(byDate, tasks[..|tasks|])
    ensures GroupsCompleted(byDate, tasks)
  {
    assert tasks[..|tasks|] == tasks;
  }

  /** `Object.keys(...).sort()`: the days in increasing order (ISO date
      strings sort chronologically, so comparing strings is comparing days). */
  function SortedDays(keys: seq<int>): (dates: seq<int>)
    requires Distinct(keys)
    ensures forall i, j :: 0 <= i < j < |dates| ==> dates[i] < dates[j]
    ensures forall d :: d in dates <==> d in keys
    ensures |dates| == |keys|
  {
    var cmp := (a: int, b: int) => a - b;
    var key := (a: int) => a;
    SortSortedByKey(keys, cmp, key);
    SortDistinct(keys, cmp);
    var dates := Sort(keys, cmp);
    assert forall d :: d in dates <==> d in multiset(keys);
    dates
  }

  /** The entries `dates[lo..hi)` are consecutive days. */
  predicate Consecutive(dates: seq<int>, lo: int, hi: int)
    requires 0 <= lo <= hi <= |dates|
  {
    forall m :: lo <= m < hi - 1 ==> dates[m + 1] == dates[m] + 1
  }

  /** The current streak: start today if a task was completed today, else
      yesterday if one was, else there is no streak; then count back day by
      day while each day has a completion. The result is the length of the
      run of active days ending at the start day. */
  method CurrentStreak(active: set<int>, now: int) returns (streak: nat)
    ensures streak == 0 <==> DayOf(now) !in active && DayOf(now) - 1 !in active
    ensures StreakEndsAt(active, StreakStart(active, now), streak)
  {
    var today := DayOf(now);
    var yesterday := DayOf(now - MsPerDay);
    DayOfShift(now, -1);
    streak := 0;
    if today in active || yesterday in active {
      var start := if today in active then today else yesterday;
      streak := 1;
      var current := start - 1;
      ghost var rem := set x | x in active && x <= current;
      while current in active
        invariant current == start - streak
        invariant forall d :: start - streak < d <= start ==> d in active
        invariant rem == set x | x in active && x <= current
        decreases |rem|
      {
        streak := streak + 1;
        ghost var next := set x | x in active && x <= current - 1;
        assert next == rem - {current};
        current := current - 1;
        rem := next;
      }
    }
  }

  /** The longest streak: a scan over the sorted days that extends the run
      while successive days differ by one and closes it otherwise. The result
      is the length of the longest block of consecutive days: one such block
      exists and none is longer. */
  method LongestStreak(dates: seq<int>) returns (longest: nat)
    requires |dates| > 0
    ensures 1 <= longest <= |dates|
    ensures exists lo, hi :: 0 <= lo <= hi <= |dates| && hi - lo == longest && Consecutive(dates, lo, hi)
    ensures forall lo, hi :: 0 <= lo <= hi <= |dates| && Consecutive(dates, lo, hi) ==> hi - lo <= longest
  {
    longest := 0;
    var run := 1;
    ghost var bestLo := 0;
    for i := 1 to |dates|
      invariant 1 <= run <= i
      invariant Consecutive(dates, i - run, i)
      invariant i - run > 0 ==> dates[i - run] != dates[i - run - 1] + 1
      invariant longest <= i
      invariant longest > 0 ==> 0 <= bestLo <= i - longest && Consecutive(dates, bestLo, bestLo + longest)
      invariant forall lo, hi :: 0 <= lo <= hi <= i && Consecutive(dates, lo, hi) ==>
                  hi - lo <= (if longest < run then run else longest)
    {
      if dates[i] - dates[i - 1] == 1 {
        run := run + 1;
      } else {
        if run > longest {
          longest, bestLo := run, i - run;
        }
        run := 1;
      }
      forall lo, hi | 0 <= lo <= hi <= i + 1 && Consecutive(dates, lo, hi)
        ensures hi - lo <= (if longest < run then run else longest)
      {
        if hi == i + 1 {
          assert lo >= i + 1 - run;
        }
      }
    }
    if run > longest {
      longest, bestLo := run, |dates| - run;
    }
    assert Consecutive(dates, bestLo, bestLo + longest);
  }

  /** A run of `k` active days ending at `dates[i]` is a block of `k`
      consecutive entries of the sorted day list ending at index `i`. */
  lemma {:induction false} ActiveRunIsBlock(dates: seq<int>, i: nat, k: nat)
    requires forall a, b :: 0 <= a < b < |dates| ==> dates[a] < dates[b]
    requires i < |dates| && k >= 1
    requires forall d :: dates[i] - k < d <= dates[i] ==> d in dates
    ensures k <= i + 1 && Consecutive(dates, i + 1 - k, i + 1)
    decreases k
  {
    if k > 1 {
      assert dates[i] - 1 in dates;
      var j :| 0 <= j < |dates| && dates[j] == dates[i] - 1;
      assert j < i;
      assert dates[i - 1] == dates[i] - 1;
      ActiveRunIsBlock(dates, i - 1, k - 1);
    }
  }

  datatype StreakData = StreakData(
    currentStreak: nat,
    longestStreak: nat,
    consecutiveDays: nat,
    consecutiveWeeks: nat,
    consecutiveMonths: nat)

  const NoStreak := StreakData(0, 0, 0, 0, 0)

  /** The days on which some task was completed. */
  function CompletedDays(tasks: seq<Task>): set<int> {
    set t | t in tasks && t.status == Completed :: DayOf(t.updatedAt)
  }

  /** Where the current streak is counted back from: today if it has a
      completion, otherwise yesterday. */
  function StreakStart(active: set<int>, now: int): int {
    if DayOf(now) in active then DayOf(now) else DayOf(now) - 1
  }

  /** `k` is the length of the run of days in `active` ending at `start`:
      the `k` days up to `start` are all in it and the day before them is not
      (for a positive `k`). */
  ghost predicate StreakEndsAt(active: set<int>, start: int, k: nat) {
    && (forall d :: start - k < d <= start ==> d in active)
    && (k > 0 ==> start - k !in active)
  }

  /** `Object.keys(completedTasksByDate).sort()`: the days with a
      completion, each once, in increasing order. */
  method CompletionDays(tasks: seq<Task>) returns (dates: seq<int>)
    ensures forall i, j :: 0 <= i < j < |dates| ==> dates[i] < dates[j]
    ensures forall d :: d in dates <==> d in CompletedDays(tasks)
  {
    var byDate, keys := GroupCompletedByDate(tasks);
    CompletedDaysAreKeys(tasks, byDate);
    dates := SortedDays(keys);
  }

  /** The `k` days up to and including `d` are all in `active`. */
  ghost predicate ActiveRun(active: set<int>, d: int, k: nat) {
    forall e :: d - k < e <= d ==> e in active
  }

  /** `n` is the length of the longest run of consecutive days in
      `active`: no run is longer, and a positive `n` is reached. */
  ghost predicate LongestRunIs(active: set<int>, n: nat) {
    && (forall d, k :: k >= 1 && ActiveRun(active, d, k) ==> k <= n)
    && (n > 0 ==> exists d :: ActiveRun(active, d, n))
  }

  /** What the streak effect computes from the tasks and the current time:
      the current streak with its day, week and month forms, and the
      longest streak. */
  ghost predicate StreakDataOf(tasks: seq<Task>, now: int, data: StreakData) {
    var active := CompletedDays(tasks);
    && data.consecutiveDays == data.currentStreak
    && data.consecutiveWeeks == data.currentStreak / 7
    && data.consecutiveMonths == data.currentStreak / 30
    && (data.currentStreak == 0 <==> DayOf(now) !in active && DayOf(now) - 1 !in active)
    && StreakEndsAt(active, StreakStart(active, now), data.currentStreak)
    && LongestRunIs(active, data.longestStreak)
  }

  /** The body of the streak effect, for a non-empty task list. */
  method ComputeStreak(tasks: seq<Task>, now: int) returns (data: StreakData)
    ensures StreakDataOf(tasks, now, data)
    ensures data.currentStreak <= data.longestStreak
    ensures data.longestStreak == 0 <==> CompletedDays(tasks) == {}
  {
    var dates := CompletionDays(tasks);
    var days := CompletedDays(tasks);
    if |dates| == 0 {
      NoRunInEmpty(days);
      return NoStreak;
    }
    assert dates[0] in dates;
    assert dates[0] in days;
    var current := CurrentStreak(days, now);
    var longest := LongestStreak(dates);
    LongestBlockIsLongestRun(dates, days, longest);
    if current > 0 {
      assert ActiveRun(days, StreakStart(days, now), current);
    }
    data := StreakData(current, longest, current, current / 7, current / 30);
  }

  /** With no active day there is no run, so the longest run is 0. */
  lemma NoRunInEmpty(active: set<int>)
    requires active == {}
    ensures LongestRunIs(active, 0)
  {
    forall d, k | k >= 1
      ensures !ActiveRun(active, d, k)
    {
      assert d !in active;
    }
  }

  /** The entries of a block of consecutive days count down one by one
      from its last entry. */
  lemma {:induction false} BlockCountsDown(dates: seq<int>, lo: int, hi: int, m: int)
    requires 0 <= lo <= m < hi <= |dates| && Consecutive(dates, lo, hi)
    ensures dates[m] == dates[hi - 1] - (hi - 1 - m)
    decreases hi - m
  {
    if m < hi - 1 {
      BlockCountsDown(dates, lo, hi, m + 1);
    }
  }

  /** Over the sorted list of the active days, the longest block of
      consecutive entries is the longest run of active days. */
  lemma LongestBlockIsLongestRun(dates: seq<int>, active: set<int>, longest: nat)
    requires forall a, b :: 0 <= a < b < |dates| ==> dates[a] < dates[b]
    requires forall d :: d in dates <==> d in active
    requires exists lo, hi :: 0 <= lo <= hi <= |dates| && hi - lo == longest && Consecutive(dates, lo, hi)
    requires forall lo, hi :: 0 <= lo <= hi <= |dates| && Consecutive(dates, lo, hi) ==> hi - lo <= longest
    ensures LongestRunIs(active, longest)
  {
    forall d, k | k >= 1 && ActiveRun(active, d, k)
      ensures k <= longest
    {
      assert forall e :: d - k < e <= d ==> e in dates;
      StreakWithinLongest(dates, d, k, longest);
    }
    if longest > 0 {
      var lo, hi :| 0 <= lo <= hi <= |dates| && hi - lo == longest && Consecutive(dates, lo, hi);
      var d := dates[hi - 1];
      forall e | d - longest < e <= d
        ensures e in active
      {
        var m := hi - 1 - (d - e);
        BlockCountsDown(dates, lo, hi, m);
        assert dates[m] == e;
      }
      assert ActiveRun(active, d, longest);
    }
  }

  /** The streak data is determined by the tasks and the current time: two
      results of the effect for the same input agree. */
  lemma StreakDataUnique(tasks: seq<Task>, now: int, x: StreakData, y: StreakData)
    requires StreakDataOf(tasks, now, x) && StreakDataOf(tasks, now, y)
    ensures x == y
  {
    var active := CompletedDays(tasks);
    var start := StreakStart(active, now);
    if x.currentStreak > 0 && y.currentStreak > 0 {
      RunStopsAtGap(active, start, x.currentStreak, y.currentStreak);
      RunStopsAtGap(active, start, y.currentStreak, x.currentStreak);
    }
    if y.longestStreak > 0 {
      var d :| ActiveRun(active, d, y.longestStreak);
    }
    if x.longestStreak > 0 {
      var d :| ActiveRun(active, d, x.longestStreak);
    }
  }

  /** A run of `k` active days ending at `start` cannot reach back past an
      inactive day `start - j`. */
  lemma RunStopsAtGap(active: set<int>, start: int, k: nat, j: nat)
    requires ActiveRun(active, start, k) && start - j !in active
    ensures k <= j
  {
  }

  /** The keys of the grouping are exactly the days with a completion. */
  lemma CompletedDaysAreKeys(tasks: seq<Task>, byDate: map<int, seq<Task>>)
    requires GroupsCompleted(byDate, tasks)
    ensures byDate.Keys == CompletedDays(tasks)
  {
    forall t | t in tasks && t.status == Completed ensures DayOf(t.updatedAt) in byDate {
      assert t in CompletedOn(tasks, DayOf(t.updatedAt));
    }
    forall d | d in byDate ensures d in CompletedDays(tasks) {
      var t := CompletedOn(tasks, d)[0];
      assert CompletedOnDay(d)(t);
    }
  }

  /** A run of `k` active days ending at `start` is no longer than the
      longest block of consecutive entries of the sorted day list. */
  lemma StreakWithinLongest(dates: seq<int>, start: int, k: nat, longest: nat)
    requires forall a, b :: 0 <= a < b < |dates| ==> dates[a] < dates[b]
    requires k >= 1 && forall d :: start - k < d <= start ==> d in dates
    requires forall lo, hi :: 0 <= lo <= hi <= |dates| && Consecutive(dates, lo, hi) ==> hi - lo <= longest
    ensures k <= longest
  {
    assert start in dates;
    var i :| 0 <= i < |dates| && dates[i] == start;
    ActiveRunIsBlock(dates, i, k);
  }

  /** The component's streak state and the effect that recomputes it when
      the task list changes. */
  class StreakTracker {
    var streakData: StreakData

    constructor ()
      ensures streakData == NoStreak
    {
      streakData := NoStreak;
    }

    /** An empty task list returns early and keeps the previous streak data. */
    method TasksChanged(tasks: seq<Task>, now: int)
      modifies this
      ensures tasks == [] ==> streakData == old(streakData)
      ensures tasks != [] ==> StreakDataOf(tasks, now, streakData)
      ensures tasks != [] ==> streakData.currentStreak <= streakData.longestStreak
      ensures tasks != [] ==> (streakData.longestStreak == 0 <==> CompletedDays(tasks) == {})
    {
      if |tasks| == 0 {
        return;
      }
      streakData := ComputeStreak(tasks, now);
    }
  }

  datatype Level = Beginner | Intermediate | Advanced | Expert | Master

  /** `['beginner', 'intermediate', 'advanced', 'expert', 'master']`. */
  const Levels: seq<Level> := [Beginner, Intermediate, Advanced, Expert, Master]

  function Rank(l: Level): nat {
    match l
    case Beginner => 0
    case Intermediate => 1
    case Advanced => 2
    case Expert => 3
    case Master => 4
  }

  /** The achievement thresholds of the source. */
  const TasksCompletedThresholds: seq<int> := [10, 50, 100, 500, 1000]
  const StreakThresholds: seq<int> := [3, 7, 14, 30, 60]
  const OnTimeRateThresholds: seq<int> := [60, 70, 80, 90, 95]

  predicate Ascending(th: seq<int>) {
    forall i, j :: 0 <= i < j < |th| ==> th[i] < th[j]
  }

  /** The index of the first threshold above `value`, or `|th|` if none is. */
  function FirstAbove(value: int, th: seq<int>): (i: nat)
    ensures i <= |th|
    ensures forall j :: 0 <= j < i ==> th[j] <= value
    ensures i < |th| ==> value < th[i]
    decreases |th|
  {
    if th == [] then 0
    else if value < th[0] then 0
    else 1 + FirstAbove(value, th[1..])
  }

  /** `getAchievementLevel(value, thresholds)`: the level at the index of the
      first threshold above `value`, or master if there is none. With more
      than five thresholds the index can fall past the level names; that
      undefined result is `None`. */
  function AchievementLevel(value: int, th: seq<int>): (l: Option<Level>)
    ensures |th| <= 5 ==> l.Some?
  {
    var i := FirstAbove(value, th);
    if i < |th| then (if i < |Levels| then Some(Levels[i]) else None)
    else Some(Master)
  }

  /** With five ascending thresholds, the level is the band `value` falls
      in: below the first threshold beginner, then one level per threshold
      reached, and master from the fourth threshold on (the fifth never
      changes the level). */
  lemma {:induction false} LevelBands(value: int, th: seq<int>)
    requires |th| == 5 && Ascending(th)
    ensures AchievementLevel(value, th) == Some(Beginner) <==> value < th[0]
    ensures AchievementLevel(value, th) == Some(Intermediate) <==> th[0] <= value < th[1]
    ensures AchievementLevel(value, th) == Some(Advanced) <==> th[1] <= value < th[2]
    ensures AchievementLevel(value, th) == Some(Expert) <==> th[2] <= value < th[3]
    ensures AchievementLevel(value, th) == Some(Master) <==> th[3] <= value
  {
    var i := FirstAbove(value, th);
    if i < 5 {
      assert value < th[i];
      assert forall j :: i <= j < 5 ==> value < th[j];
    }
  }

  /** A larger value never earns a lower level. */
  lemma LevelMonotone(v: int, w: int, th: seq<int>)
    requires |th| == 5 && Ascending(th) && v <= w
    ensures Rank(AchievementLevel(v, th).value) <= Rank(AchievementLevel(w, th).value)
  {
    LevelBands(v, th);
    LevelBands(w, th);
  }

  /** `getNextThreshold(value, thresholds)`: the first threshold above
      `value`, or the last threshold when none is. */
  function NextThreshold(value: int, th: seq<int>): (r: int)
    requires |th| > 0
    ensures r in th
  {
    var i := FirstAbove(value, th);
    if i < |th| then th[i] else th[|th| - 1]
  }

  /** With ascending thresholds the next threshold is the smallest one above
      `value`, and it is the last one exactly when `value` has reached the
      second to last. */
  lemma {:induction false} NextThresholdLeastAbove(value: int, th: seq<int>)
    requires |th| > 0 && Ascending(th)
    ensures value < th[|th| - 1] ==> value < NextThreshold(value, th)
    ensures forall j :: 0 <= j < |th| && value < th[j] ==> NextThreshold(value, th) <= th[j]
    ensures value >= th[|th| - 1] ==> NextThreshold(value, th) == th[|th| - 1]
  {
    var i := FirstAbove(value, th);
    if value < th[|th| - 1] {
      assert i < |th|;
    }
  }

  /** `getProgressPercentage(value, next)`: `value / next` as a rounded
      percentage, capped at 100. */
  function Progress(value: nat, next: int): (r: nat)
    requires next > 0
    ensures r <= 100
    ensures value >= next ==> r == 100
    ensures value < next ==> 2 * next * r - next <= 200 * value < 2 * next * r + next
  {
    var p := RoundPercent(value, next);
    if p < 100 then p else 100
  }

  /** Once `value` passes every threshold, the bar is full. */
  lemma ProgressFullAtTop(value: nat, th: seq<int>)
    requires |th| > 0 && Ascending(th) && th[|th| - 1] > 0 && value >= th[|th| - 1]
    ensures Progress(value, NextThreshold(value, th)) == 100
  {
    NextThresholdLeastAbove(value, th);
  }

  /** 75 completed tasks: advanced, 100 is the next threshold, 75 %. */
  lemma SeventyFiveCompletedExample()
    ensures AchievementLevel(75, TasksCompletedThresholds) == Some(Advanced)
    ensures NextThreshold(75, TasksCompletedThresholds) == 100
    ensures Progress(75, 100) == 75
  {
    assert FirstAbove(75, TasksCompletedThresholds) == 2 by {
      assert TasksCompletedThresholds[1..] == [50, 100, 500, 1000];
      assert TasksCompletedThresholds[1..][1..] == [100, 500, 1000];
    }
  }
}
