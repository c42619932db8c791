# Tida task manager — a Dafny model of its core

Tida is a single-user task manager. A client-side store holds tasks and
categories, mirrors them to local storage and, when a user is signed in,
to a remote database. On top of the store sit these views:

- the filtered and sorted task list with drag-and-drop reordering;
- its filter popover;
- a dashboard of metric cards, two pie charts and the most recent tasks;
- a due-date month calendar with a seven-day preview;
- a year-long "contribution" calendar of created tasks;
- an achievements page of completion rates, streaks and levels;
- a small internationalisation provider.

This project models that core in Dafny and proves what each part promises.

Layout, one module per source file:

| file | module | models |
|---|---|---|
| `common.dfy` | `Common` | Shared pieces: optional values; calendar days over millisecond timestamps; `findIndex`, `filter`, `includes` and the rounded percentage |
| `entities.dfy` | `Entities` | Tasks, categories and their database rows (`types/task.ts`, `types/supabase.ts`) |
| `sorting.dfy` | `Sorting` | `Array.prototype.sort` with a comparator, as a stable insertion sort |
| `utils.dfy` | `Utils` | `lib/utils.ts` |
| `tasks_provider.dfy` | `TasksProvider` | `providers/tasks-provider.tsx` (class `TaskStore`) |
| `achievements.dfy` | `Achievements` | `components/achievements/achievements.tsx` |
| `task_list.dfy` | `TaskList` | `components/tasks/task-list.tsx` (class `TaskListView`) |
| `task_filter.dfy` | `TaskFilter` | `components/tasks/task-filter.tsx` (class `FilterPanel`) |
| `dashboard.dfy` | `Dashboard` | `components/dashboard/dashboard.tsx` |
| `contribution_calendar.dfy` | `ContributionCalendar` | `components/dashboard/task-contribution-calendar.tsx` |
| `task_calendar.dfy` | `TaskCalendar` | `components/dashboard/task-calendar.tsx` (class `CalendarView`) |
| `i18n.dfy` | `I18n` | `providers/i18n-provider.tsx` (class `I18nProvider`) |

Modelling conventions:

- **Time.** A timestamp is an integer count of milliseconds since the
  epoch. A calendar day is `DayOf(ts) = ts / 86400000`, which is the UTC
  date that `toISOString().split('T')[0]` yields. A day-date string
  `'YYYY-MM-DD'` is the day number itself.
- **Outside effects.** The current time, fresh ids, browser storage
  contents and the answers of the remote database are parameters.
- **State.** The store, the views with their own state and the
  translation provider are classes. Their methods update fields in
  place. The pure computations are functions, each proved against the
  property the source promises.
- **Requests.** Every request the store sends is appended to a `sent`
  log, so the model states exactly which requests are issued and in what
  order.

Two behaviours of the code are worth knowing before reading the model:

- **Task order after a delete.** `createTask` gives a new task
  `order = tasks.length`, and `deleteTask` does not renumber the tasks
  that remain. So after a delete a later create can repeat an `order`
  value (`TasksProvider.DeleteThenCreateDuplicatesOrder`). Only
  `reorderTasks` renumbers every task densely.
- **The contribution calendar's selected range.** It is one day short;
  see the finding below.

## Model

| member | source | states |
|---|---|---|
| Common.IndexOf | providers/tasks-provider.tsx:166 | `findIndex`: -1 exactly when absent, otherwise the first position holding the value |
| Common.Filter | components/tasks/task-list.tsx:54-58 | `filter`: only elements meeting the predicate, every element meeting it kept, never more copies than in the input |
| Common.RoundPercent | components/achievements/achievements.tsx:32-39 | `Math.round(100·a/b)` as the integer nearest to 100·a/b (ties up); at most 100 when a ≤ b, 100 when a = b, 0 when a = 0 |
| Common.Rate | components/dashboard/dashboard.tsx:42-44 | zero for an empty list, otherwise the rounded percentage, at most 100 and exactly 100 when everything counts |
| Common.DayOfBounds | components/achievements/achievements.tsx:49 | a timestamp lies inside the UTC day its date string names |
| Common.DayOfShift | components/dashboard/task-contribution-calendar.tsx:44-47 | adding whole days to a timestamp moves its date by the same number of days |
| Entities.StatusNameInjective | types/task.ts:1 | the status strings identify the status |
| Entities.PriorityNameInjective | types/task.ts:2 | the priority strings identify the priority |
| Entities.TaskToRow | types/supabase.ts:13-24 | converting a task to a row and back gives the same task, for the given owner |
| Entities.TaskRowRoundTrip | providers/tasks-provider.tsx:77-88 | converting a row to a task and back gives the same row |
| Entities.CategoryToRow | types/supabase.ts:54-60 | converting a category to a row and back gives the same category |
| Entities.CategoryRowRoundTrip | providers/tasks-provider.tsx:91-96 | converting a row to a category and back gives the same row |
| Entities.TasksFromRows | providers/tasks-provider.tsx:77-88 | one task per row, in row order, each the row's exact content |
| Entities.CategoriesFromRows | providers/tasks-provider.tsx:91-96 | one category per row, in row order, each the row's exact content |
| Sorting.Sort | components/tasks/task-list.tsx:77-101 | a sort returns a permutation of its input, whatever the comparator |
| Sorting.SortSortedByKey | components/tasks/task-list.tsx:77-101 | with a comparator of the form key(a) − key(b) the result is in non-decreasing key order |
| Sorting.SortDistinct | components/achievements/achievements.tsx:58 | sorting distinct values keeps them distinct |
| Utils.Removed | lib/utils.ts:47 | `splice(i, 1)`: the element at i is gone and the rest keep their order |
| Utils.Inserted | lib/utils.ts:48 | `splice(j, 0, x)`: x sits at j and the rest keep their order |
| Utils.MovedIsPermutation | lib/utils.ts:45-48 | moving an element keeps every element, places the moved one at the target, and leaves the others in their order |
| Utils.MovedAt | lib/utils.ts:45-48 | the element at each position after a move, position by position |
| Utils.WithoutOrderOfMoved | lib/utils.ts:45-55 | moving commutes with discarding the `order` field |
| Utils.ReorderTasks | lib/utils.ts:45-55 | every task's `order` becomes its index; the moved task lands at the end index; the other tasks keep their relative order; apart from `order` the result is a permutation of the input |
| Utils.DueDateClassification | lib/utils.ts:24-42 | for an open dated task, due before today means overdue and not due today; due today means due today, and overdue exactly when the due time has passed; due after today means neither |
| Utils.ClosedOrUndatedIsNeither | lib/utils.ts:24-42 | a completed task or one without a due date is neither overdue nor due today |
| Utils.IsOverdue | lib/utils.ts:24-29 | overdue exactly when the task is not completed, has a due date, and that moment has passed |
| Utils.IsDueToday | lib/utils.ts:32-42 | due today exactly when the task is not completed and its due time lies within today, from today's first millisecond up to the next day's |
| Common.DayOfWithin | lib/utils.ts:32-42 | a timestamp falls on a day exactly when it lies between that day's first millisecond and the next day's |
| Utils.GetLocalStorageItem | lib/utils.ts:58-68 | the result is either the default or the parse of the text stored under the key |
| Utils.SetLocalStorageItem | lib/utils.ts:70-73 | without a window nothing is stored; otherwise the key holds the serialised value and every other key keeps its entry |
| Utils.GetFallsBack | lib/utils.ts:58-68 | without a window, a stored entry or a parsable value, the default is returned |
| Utils.GetAfterSet | lib/utils.ts:58-73 | reading a key after writing it returns the value written; other keys are unaffected |
| TasksProvider.Outcome | providers/tasks-provider.tsx:134-158 | no request without a signed-in user; a failure is reported exactly when a request was sent and it failed |
| TasksProvider.NewTask | providers/tasks-provider.tsx:118-126 | the new task has the fresh id, `order` as given and both timestamps now; projecting its input fields back gives exactly the caller's input |
| TasksProvider.MergeTask | providers/tasks-provider.tsx:169-173 | `updatedAt` is now; a patch without id, creation time or order keeps the task's; a status in the patch wins |
| TasksProvider.MergeCategory | providers/tasks-provider.tsx:286-289 | an empty patch gives back the category; a patch without id keeps the id; a name or colour in the patch wins |
| TasksProvider.MergeEmptyTaskPatch | providers/tasks-provider.tsx:169-173 | an empty partial update changes only `updatedAt` |
| TasksProvider.MergeTaskFields | providers/tasks-provider.tsx:169-173 | `updatedAt` is always now; the status comes from the patch when given and from the task otherwise; a patch without id, creation time or order keeps the task's identity, creation time and position |
| TasksProvider.TasksWithoutSpec | providers/tasks-provider.tsx:215 | deletion drops every task with the id, keeps all others in order, and is the identity for an unknown id |
| TasksProvider.ClearCategory | providers/tasks-provider.tsx:331-336 | clearing a category keeps the number of tasks |
| TasksProvider.ClearCategorySpec | providers/tasks-provider.tsx:331-336 | tasks of the deleted category lose their category and are otherwise unchanged; other tasks are untouched; no task refers to the category afterwards; clearing twice equals clearing once |
| TasksProvider.CreateKeepsDense | providers/tasks-provider.tsx:120-129 | appending with `order = tasks.length` keeps dense orders dense |
| TasksProvider.DeleteThenCreateDuplicatesOrder | providers/tasks-provider.tsx:120-129 | after deleting the first of two tasks, a created task gets the same `order` as the remaining one |
| TasksProvider.SpliceStart | providers/tasks-provider.tsx:384 | `splice`'s start clamps into the array: in range it is the position itself |
| TasksProvider.Reordered | providers/tasks-provider.tsx:371-390 | a reorder keeps the number of tasks |
| TasksProvider.ReorderedNoOp | providers/tasks-provider.tsx:372-376 | an unknown id, or a first task with the id (the one `findIndex` finds) whose stored `order` already equals the target, leaves the list unchanged |
| TasksProvider.ReorderedMoves | providers/tasks-provider.tsx:378-390 | an effective reorder to a valid position puts the task there, renumbers densely and keeps every task (up to `order`) |
| TasksProvider.WritesAttempted | providers/tasks-provider.tsx:400-407 | the writes attempted never exceed the tasks; fewer are attempted than there are tasks only when one fails |
| TasksProvider.WriteOrders | providers/tasks-provider.tsx:400-407 | the remote loop sends one order write per task in list order, up to and including the first failure, and reports whether one failed |
| TasksProvider.TaskStore.constructor | providers/tasks-provider.tsx:30-32 | the store starts empty and loading, with nobody signed in and nothing sent |
| TasksProvider.TaskStore.UserChanged | providers/tasks-provider.tsx:37-50 | on a user change the collections come from local storage (empty when absent); with nobody signed in, loading ends |
| TasksProvider.TaskStore.Refresh | providers/tasks-provider.tsx:53-115 | tasks are fetched first and categories only after that succeeds; collections, storage and sync time change only when both succeed; otherwise local state is untouched |
| TasksProvider.TaskStore.CreateTask | providers/tasks-provider.tsx:118-162 | the new task is appended with `order` equal to the old count and equal creation/update times; it is stored locally first and inserted remotely only when signed in |
| TasksProvider.TaskStore.UpdateTask | providers/tasks-provider.tsx:165-211 | an unknown id changes nothing and reports not found; otherwise exactly that task is replaced by its merge, then stored, then sent |
| TasksProvider.TaskStore.DeleteTask | providers/tasks-provider.tsx:214-239 | the task is removed locally and in storage; a delete request is sent when signed in |
| TasksProvider.TaskStore.CreateCategory | providers/tasks-provider.tsx:242-278 | the new category is appended, stored and inserted when signed in |
| TasksProvider.TaskStore.UpdateCategory | providers/tasks-provider.tsx:281-320 | an unknown id changes nothing and reports not found; otherwise exactly that category is merged, stored and sent |
| TasksProvider.TaskStore.DeleteCategory | providers/tasks-provider.tsx:323-368 | the category is dropped and its tasks are un-categorised locally; remotely the references are cleared first, and the delete is sent only if that succeeded |
| TasksProvider.TaskStore.ReorderTasks | providers/tasks-provider.tsx:371-417 | a no-op when nothing moves; otherwise the reordered list is committed locally, then the order writes go out one per task until the first failure |
| Achievements.CompletionPartition | components/achievements/achievements.tsx:22-29 | completed tasks with a due date split into on-time and late; they are at most the completed tasks, which are at most all tasks |
| Achievements.CompletionRate | components/achievements/achievements.tsx:32-35 | at most 100; 0 with no tasks or nothing completed; 100 when everything is completed |
| Achievements.OnTimeRate | components/achievements/achievements.tsx:37-39 | at most 100; 0 when nothing is completed |
| Achievements.GroupCompletedByDate | components/achievements/achievements.tsx:46-55 | a day is a key exactly when a task was completed on it, and its entry lists those tasks in order; the key list is duplicate-free |
| Achievements.AddCompleted | components/achievements/achievements.tsx:47-54 | a completed task is pushed onto its day's entry, creating the entry and recording its key on first use; other tasks change nothing; the keys stay duplicate-free |
| Achievements.CompletionDays | components/achievements/achievements.tsx:46-58 | the days with a completion, each exactly once, strictly ascending |
| Achievements.SortedDays | components/achievements/achievements.tsx:58 | the completion days sorted strictly ascending, none lost or added |
| Achievements.CurrentStreak | components/achievements/achievements.tsx:70-99 | zero exactly when neither today nor yesterday has a completion; otherwise the length of the unbroken run of completion days ending today or yesterday |
| Achievements.LongestStreak | components/achievements/achievements.tsx:101-118 | the length of the longest block of consecutive days among the sorted dates, attained by some block |
| Achievements.ActiveRunIsBlock | components/achievements/achievements.tsx:70-118 | a run of consecutive days ending at a date is a contiguous block of the sorted list |
| Achievements.StreakWithinLongest | components/achievements/achievements.tsx:70-118 | the current streak never exceeds the longest streak |
| Achievements.CompletedDaysAreKeys | components/achievements/achievements.tsx:46-58 | the grouping's keys are exactly the days with a completion |
| Achievements.ComputeStreak | components/achievements/achievements.tsx:42-132 | the streak data: the current streak is 0 exactly when neither today nor yesterday has a completion, and otherwise the length of the run of completion days ending at today or yesterday; days, weeks and months are that streak, it divided by 7 and by 30; the longest streak is the longest run of consecutive completion days (none is longer, one reaches it), 0 exactly when nothing was completed, and never below the current one |
| Achievements.LongestBlockIsLongestRun | components/achievements/achievements.tsx:101-118 | the longest block of consecutive entries of the sorted completion days is the longest run of consecutive completion days |
| Achievements.StreakDataUnique | components/achievements/achievements.tsx:42-132 | the streak data is determined by the tasks and the current time: two results for the same input are equal |
| Achievements.StreakTracker.constructor | components/achievements/achievements.tsx:13-19 | the streak data starts at zero |
| Achievements.StreakTracker.TasksChanged | components/achievements/achievements.tsx:42-132 | an empty task list leaves the streak data alone; otherwise the streak data is the one computed from the tasks, with every property `ComputeStreak` states |
| Achievements.FirstAbove | components/achievements/achievements.tsx:137-141 | the number of thresholds the value has reached before the first one above it |
| Achievements.AchievementLevel | components/achievements/achievements.tsx:135-143 | with at most five thresholds a level is always found |
| Achievements.LevelBands | components/achievements/achievements.tsx:135-143 | with five ascending thresholds, each level corresponds to exactly its band of values |
| Achievements.LevelMonotone | components/achievements/achievements.tsx:135-143 | a larger value never gives a lower level |
| Achievements.NextThreshold | components/achievements/achievements.tsx:156-163 | the next threshold is one of the thresholds |
| Achievements.NextThresholdLeastAbove | components/achievements/achievements.tsx:156-163 | it is the least threshold above the value, or the last one when every threshold is reached |
| Achievements.Progress | components/achievements/achievements.tsx:146-148 | the rounded percentage towards the next threshold, capped at 100 |
| Achievements.ProgressFullAtTop | components/achievements/achievements.tsx:146-163 | past the last threshold the progress bar is full |
| Achievements.SeventyFiveCompletedExample | components/achievements/achievements.tsx:151-168 | 75 completed tasks is level Advanced, 75% of the way to 100 |
| TaskList.Lower | components/tasks/task-list.tsx:53 | lower-casing keeps the length |
| TaskList.FilterTasks | components/tasks/task-list.tsx:48-74 | the four filters in the source's order; the result is drawn from the tasks and holds no task more often than they do |
| TaskList.FilterTasksMembership | components/tasks/task-list.tsx:48-74 | a task is shown exactly when it passes the search and every active filter; an empty or null filter is inactive |
| TaskList.FilterTasksSubsequence | components/tasks/task-list.tsx:48-74 | filtering keeps the tasks' relative order |
| TaskList.NoFiltersKeepsAll | components/tasks/task-list.tsx:48-74 | with no search and no filters every task is shown in order |
| TaskList.ApplyFilters | components/tasks/task-list.tsx:48-74 | the successive filter passes compute exactly the filtered list |
| TaskList.Comparator | components/tasks/task-list.tsx:77-101 | the direction never changes which pairs tie; the comparator is negative exactly when the field comparison is negative (ascending) or positive (descending) |
| TaskList.SortTasks | components/tasks/task-list.tsx:77-101 | whatever the field and direction, the sorted list is a permutation |
| TaskList.SortByOrder | components/tasks/task-list.tsx:96-100 | ascending gives non-decreasing `order`, descending non-increasing |
| TaskList.SortByPriority | components/tasks/task-list.tsx:84-88 | ascending puts high, then medium, then low; descending the reverse |
| TaskList.DragRequest | components/tasks/task-list.tsx:116-131 | no request when dropped on itself; otherwise the dragged id and the drop target's position in the displayed list |
| TaskList.FilteredDragMovesPastHiddenTask | components/tasks/task-list.tsx:121-128 | with a filter hiding a task, the displayed index sent to the store moves the dragged task past the hidden one |
| TaskList.TaskListView.constructor | components/tasks/task-list.tsx:25-31 | no search, no status or priority filter, the initial category filter, sort by order ascending |
| TaskList.TaskListView.Recompute | components/tasks/task-list.tsx:48-104 | the shown list becomes the sorted filtered tasks; the filter settings are untouched |
| TaskList.TaskListView.HandleDragEnd | components/tasks/task-list.tsx:116-131 | dropping a card on itself does nothing; otherwise the shown list is rearranged and the request is sent |
| TaskFilter.ActiveCount | components/tasks/task-filter.tsx:49 | the badge is between 0 and 3: 0 exactly when no filter is set, 3 exactly when all are set |
| TaskFilter.Toggled | components/tasks/task-filter.tsx:103-107 | choosing the selected option clears it; choosing another selects that option |
| TaskFilter.ToggledTwice | components/tasks/task-filter.tsx:103-107 | choosing the same option twice restores a selection of that option and clears anything else |
| TaskFilter.Flipped | components/tasks/task-filter.tsx:197-199 | the direction item always changes the direction |
| TaskFilter.FlippedInvolution | components/tasks/task-filter.tsx:197-199 | flipping twice restores the direction |
| TaskFilter.FilterPanel.constructor | components/tasks/task-filter.tsx:32-42 | the panel shows the values it is given |
| TaskFilter.FilterPanel.SelectStatus | components/tasks/task-filter.tsx:103-107 | only the status filter changes, toggled by the option |
| TaskFilter.FilterPanel.ClearStatus | components/tasks/task-filter.tsx:115 | "All" clears only the status filter |
| TaskFilter.FilterPanel.SelectCategory | components/tasks/task-filter.tsx:129-133 | only the category filter changes, toggled by the option |
| TaskFilter.FilterPanel.ClearCategory | components/tasks/task-filter.tsx:147 | "All" clears only the category filter |
| TaskFilter.FilterPanel.SelectPriority | components/tasks/task-filter.tsx:161-165 | only the priority filter changes, toggled by the option |
| TaskFilter.FilterPanel.ClearPriority | components/tasks/task-filter.tsx:173 | "All" clears only the priority filter |
| TaskFilter.FilterPanel.SelectSort | components/tasks/task-filter.tsx:187-189 | only the sort field changes |
| TaskFilter.FilterPanel.FlipDirection | components/tasks/task-filter.tsx:197-199 | only the direction changes, to the other one |
| TaskFilter.FilterPanel.Reset | components/tasks/task-filter.tsx:75-81 | every filter is cleared, the sort returns to order ascending, and the badge shows 0 |
| Dashboard.StatusCountsPartition | components/dashboard/dashboard.tsx:35-37 | pending, in-progress and completed counts add up to the number of tasks |
| Dashboard.PriorityCountsPartition | components/dashboard/dashboard.tsx:53-57 | high, medium and low counts add up to the number of tasks |
| Dashboard.ComputeMetrics | components/dashboard/dashboard.tsx:34-44 | the status counts split the total; overdue and due-today tasks are all open; the rate is at most 100, 0 for no tasks and 100 when all are completed |
| Dashboard.RateTrend | components/dashboard/dashboard.tsx:84 | positive from 70%, neutral from 40% up to 70%, negative below 40% |
| Dashboard.RateTrendMonotone | components/dashboard/dashboard.tsx:84 | a higher rate never gives a worse trend |
| Dashboard.DueTodayTrend | components/dashboard/dashboard.tsx:100 | a warning exactly when something is due today, positive otherwise |
| Dashboard.OverdueTrend | components/dashboard/dashboard.tsx:108 | negative exactly when something is overdue, positive otherwise |
| Dashboard.TotalOfNonEmpty | components/dashboard/dashboard.tsx:47-57 | dropping empty slices keeps the chart's total |
| Dashboard.NonEmptySlices | components/dashboard/dashboard.tsx:51 | only slices with a positive value remain, with the same total |
| Dashboard.StatusData | components/dashboard/dashboard.tsx:47-51 | at most three slices, all non-empty, totalling the number of tasks |
| Dashboard.PriorityData | components/dashboard/dashboard.tsx:53-57 | at most three slices, all non-empty, totalling the number of tasks |
| Dashboard.RecentTasks | components/dashboard/dashboard.tsx:60-62 | the first five (or all, if fewer) of the tasks, without duplication |
| Dashboard.RecentTasksAreNewest | components/dashboard/dashboard.tsx:60-62 | newest first, and no task left out is newer than any task shown |
| ContributionCalendar.RangeDays | components/dashboard/task-contribution-calendar.tsx:22 | each range is between 1 and 365 days |
| ContributionCalendar.Window | components/dashboard/task-contribution-calendar.tsx:32-35 | 365 strictly ascending days ending today |
| ContributionCalendar.DateList | components/dashboard/task-contribution-calendar.tsx:42-48 | the date loop lists exactly the 365-day window ending today |
| ContributionCalendar.TallyCreated | components/dashboard/task-contribution-calendar.tsx:51-64 | every date of the window is a key; each holds the number of tasks created that day; tasks outside the window are ignored |
| ContributionCalendar.TallySum | components/dashboard/task-contribution-calendar.tsx:51-64 | the counts add up to the tasks created within the window, so never more than all tasks |
| ContributionCalendar.MaxCount | components/dashboard/task-contribution-calendar.tsx:67 | at least 1, no smaller than any count, and attained unless it is the floor 1 |
| ContributionCalendar.Level | components/dashboard/task-contribution-calendar.tsx:70-76 | level 0 exactly for no tasks; never above 4; the busiest day gets its count (maximum ≤ 4) or 4 |
| ContributionCalendar.CeilFacts | components/dashboard/task-contribution-calendar.tsx:74-75 | a non-zero count reaches at least level 1, and the maximum reaches level 4 |
| ContributionCalendar.LevelMonotone | components/dashboard/task-contribution-calendar.tsx:70-76 | more tasks never give a lower level |
| ContributionCalendar.InSelectedRangeAsWritten | components/dashboard/task-contribution-calendar.tsx:83 | the comparison as written: today and later are always in range, and no day R or more days back is |
| ContributionCalendar.AsWrittenAtMidnight | components/dashboard/task-contribution-calendar.tsx:38-39 | at exactly midnight the comparison as written selects the last R days, agreeing with the corrected one |
| ContributionCalendar.InSelectedRange | components/dashboard/task-contribution-calendar.tsx:38-39 | corrected range: today is always in range and no day 365 or more days back is |
| ContributionCalendar.AsWrittenRangeIsOneDayShort | components/dashboard/task-contribution-calendar.tsx:38-39 | as written, unless it is exactly midnight, only the last R − 1 days are in range, and the oldest day of the range is left out |
| ContributionCalendar.AsWrittenRangeMonotone | components/dashboard/task-contribution-calendar.tsx:83 | as written, the in-range days still form a suffix of the window |
| ContributionCalendar.SelectedRangeIsSuffix | components/dashboard/task-contribution-calendar.tsx:38-39 | corrected: exactly the last R days of the window are in range |
| ContributionCalendar.CalendarData | components/dashboard/task-contribution-calendar.tsx:79-84 | one cell per date, carrying that date's count and its level (0 exactly for no tasks, never above 4); the in-range flag is the corrected one, not the comparison of line 83 |
| ContributionCalendar.BuildCalendar | components/dashboard/task-contribution-calendar.tsx:30-87 | 365 cells for the window; each count is that day's created tasks; level 0 exactly for no tasks and never above 4; total at most the number of tasks; the corrected flag marks the last R cells, and differs from the comparison as written only on the oldest of them when `now` is not exactly midnight |
| ContributionCalendar.TotalCountIsSum | components/dashboard/task-contribution-calendar.tsx:79-84 | the cells' total is the sum of the tallies |
| TaskCalendar.TasksForDay | components/dashboard/task-calendar.tsx:84-94 | every listed task comes from the tasks and is due on that day; no more tasks than there are |
| TaskCalendar.OpenCountForDay | components/dashboard/task-calendar.tsx:70-81 | at most the number of tasks, and 0 exactly when no open task is due that day |
| TaskCalendar.TasksForDayMembership | components/dashboard/task-calendar.tsx:84-94 | a task is listed on a day exactly when it is due that day, whatever its status, in list order; undated tasks are on no day |
| TaskCalendar.OpenCountIsOpenTasksOfDay | components/dashboard/task-calendar.tsx:70-81 | the day's count is the number of its open tasks, at most all of its tasks; undated tasks never count |
| TaskCalendar.ToggledStatus | components/dashboard/task-calendar.tsx:39 | completed becomes pending; pending or in progress becomes completed; never in progress |
| TaskCalendar.ToggledTwice | components/dashboard/task-calendar.tsx:39 | toggling twice restores pending and completed; in progress comes back as pending |
| TaskCalendar.StatusPatchChangesOnlyStatus | components/dashboard/task-calendar.tsx:40 | the toggle's update changes the status and update time only |
| TaskCalendar.DayClassOf | components/dashboard/task-calendar.tsx:97-125 | the cell colour by precedence: outside the month, then selected, then today, then tomorrow, then having open tasks; the "with tasks" variants exactly when open tasks exist |
| TaskCalendar.PreviewOf | components/dashboard/task-calendar.tsx:181-222 | at most the first three of the day's tasks are shown; shown and "more" add up to all of them; "more" exactly when over three |
| TaskCalendar.DaysWhere | components/dashboard/task-calendar.tsx:34 | the days of a span meeting a condition, ascending, each in the span |
| TaskCalendar.UpcomingPreview | components/dashboard/task-calendar.tsx:180-234 | one preview per day with something due in the next seven days, in day order |
| TaskCalendar.UpcomingDays | components/dashboard/task-calendar.tsx:180-234 | the previewed days are exactly the days from today to today + 6 with a task due; none exactly when nothing is due |
| TaskCalendar.CalendarView.constructor | components/dashboard/task-calendar.tsx:24-25 | the given month, nothing selected |
| TaskCalendar.CalendarView.PrevMonth | components/dashboard/task-calendar.tsx:56-61 | one month back, the selection kept |
| TaskCalendar.CalendarView.NextMonth | components/dashboard/task-calendar.tsx:63-67 | one month forward, the selection kept |
| TaskCalendar.CalendarView.SelectDay | components/dashboard/task-calendar.tsx:163 | the clicked day becomes the selection |
| TaskCalendar.CalendarView.ToggleTaskStatus | components/dashboard/task-calendar.tsx:37-53 | success exactly for a known id; then only that task's status and update time change; an unknown id changes nothing |
| I18n.ParseLanguage | providers/i18n-provider.tsx:27-30 | a string is recognised exactly when it is one of the language codes |
| I18n.ParseCode | providers/i18n-provider.tsx:27-30 | every language is recognised by its own code |
| I18n.InitialLanguage | providers/i18n-provider.tsx:33-41 | the saved language when it is a non-empty available code, English otherwise |
| I18n.InitialLanguageOfSaved | providers/i18n-provider.tsx:33-41 | a saved language is read back on the next start |
| I18n.BrowserPrefix | providers/i18n-provider.tsx:51 | the part of the browser language before the first '-' |
| I18n.Lookup | providers/i18n-provider.tsx:83 | the current language's text if non-empty, else the English text if non-empty, else the key |
| I18n.LookupFallback | providers/i18n-provider.tsx:83 | a non-empty key never translates to an empty text |
| I18n.Placeholder | providers/i18n-provider.tsx:87 | a placeholder is the name in braces |
| I18n.ReplaceAll | providers/i18n-provider.tsx:87 | a value as long as the pattern keeps the text's length |
| I18n.ReplaceAllAbsent | providers/i18n-provider.tsx:87 | replacing leaves text without the pattern unchanged |
| I18n.ReplaceAllSelf | providers/i18n-provider.tsx:87 | replacing a pattern by itself changes nothing |
| I18n.ReplaceAllBeforeBrace | providers/i18n-provider.tsx:87 | no occurrence of a pattern whose only '{' comes first straddles the point before a '{', so each side is rewritten on its own |
| I18n.ReplaceAllBraceFree | providers/i18n-provider.tsx:87 | text without '{' is copied unchanged ahead of the rewritten rest |
| I18n.ReplacePlaceholder | providers/i18n-provider.tsx:87 | a placeholder `{name}` anywhere in a text becomes the value, and the text before and after it is rewritten as on its own |
| I18n.ReplaceKeepsOther | providers/i18n-provider.tsx:87 | replacing one brace-free name keeps the placeholder of another brace-free name in place, wherever it stands |
| I18n.NoBraceNoPlaceholder | providers/i18n-provider.tsx:87 | text without '{' contains no placeholder |
| I18n.PlaceholderPrefix | providers/i18n-provider.tsx:87 | one placeholder starts another only when the names are equal |
| I18n.PlaceholderNotInOther | providers/i18n-provider.tsx:87 | a brace-free name's placeholder contains no other name's placeholder |
| I18n.SubstituteAll | providers/i18n-provider.tsx:85-89 | text mentioning none of the parameters' placeholders is unchanged |
| I18n.UnknownPlaceholderKept | providers/i18n-provider.tsx:85-89 | a placeholder in the text, anywhere, whose brace-free name no parameter has, is still in the text after substitution |
| I18n.I18nProvider.constructor | providers/i18n-provider.tsx:45-47 | the language starts as the initial language; not yet loaded |
| I18n.I18nProvider.Mount | providers/i18n-provider.tsx:49-63 | with nothing saved, an available browser language is adopted and saved; loading is marked done either way |
| I18n.I18nProvider.SetLanguage | providers/i18n-provider.tsx:65-80 | the language and its stored code change, and reading back gives the new language; a signed-in user's profile write is attempted |
| I18n.I18nProvider.Translate | providers/i18n-provider.tsx:82-92 | the looked-up text, with each parameter's placeholders replaced in entry order |

## Findings

| source | as written | input that shows it | evidently intended | confidence | as-written member | corrected member |
|---|---|---|---|---|---|---|
| components/dashboard/task-contribution-calendar.tsx:38-39 | the range start keeps the current time of day, and each cell's date is compared as its midnight, so the oldest day of the range is out of range | range '30', now at 10:00 on day D: day D − 29 starts at midnight, before D − 29 at 10:00, so only 29 days are highlighted | the last R days, today included, are in range | high (not executed) | ContributionCalendar.AsWrittenRangeIsOneDayShort | ContributionCalendar.SelectedRangeIsSuffix |

`ContributionCalendar.InSelectedRangeAsWritten` is the comparison as the
source writes it. `ContributionCalendar.InSelectedRange` is the corrected
one, and `CalendarData` and `BuildCalendar` use it. `BuildCalendar` also
states how its flag relates to the comparison as written.

## Left out

- Remote database I/O: each request's result is a boolean (or, for the reorder loop, the position of the first failing write) passed in by the caller. Toasts and console logging are represented only by the returned outcome.
- Concurrency: the operations are async in the source and are modelled as if they never interleave. A stale `tasks` closure across awaits is not captured.
- Local storage: modelled as a map from key to text. JSON parsing and serialisation are parameters (`GetLocalStorageItem`, `SetLocalStorageItem`).
- Time zones and daylight saving: every date is the UTC day of a timestamp. `isDueToday` and the calendars compare local dates in the source; they agree with the model for a UTC clock.
- Calendar months: `CalendarView` counts months as integers. Whether a day lies in the displayed month (`isSameMonth`, `eachDayOfInterval`) is a parameter of `DayClassOf`. `setMonth` overflow on the 29th to 31st is not modelled.
- Floating point: `Math.round` and `Math.ceil` on percentages and levels are modelled exactly in integers. The source's floating-point results can differ when a quotient lands within rounding error of .5.
- TaskList.Lower: lower-cases only ASCII letters; Unicode case mapping is not modelled.
- I18n.ReplaceAll: treats the parameter name as a literal pattern. Names with regular-expression metacharacters and `$` patterns in values are not modelled.
- TaskList.SortTasks: `localeCompare` is approximated by code-point order. Orderings are proved only for the `order` and `priority` fields; for title, due date and creation time only the permutation is claimed. The due-date and creation-time comparators never return 0 and are not consistent comparators, so the engine's result depends on its algorithm.
- Sorting.Sort: `Array.prototype.sort` is modelled as a stable insertion sort. For an inconsistent comparator the engine may order differently.
- Achievements.AchievementLevel: with more than five thresholds the source would index past the level names. The model returns no level there; the source only ever passes five.
- Achievements.LongestStreak: requires a non-empty date list, because the source handles the empty case before the loop (achievements.tsx:58-68).
- TaskList.TaskListView.HandleDragEnd: requires both ids to be shown in the list, as the drag library guarantees. An unknown id would make `arrayMove` use index -1, which is not modelled.
- ContributionCalendar.CalendarData: its in-range flag is the corrected comparison, not `new Date(date) >= selectedRangeStartDate` of line 83. When `now` is not exactly midnight the source leaves cell 365 − R out of range and the model puts it in.
- ContributionCalendar.BuildCalendar: for the same reason it marks the last R cells in range where the source marks R − 1 unless `now` is exactly midnight. Its contract states that this is the only cell where the two differ.
- Dashboard chart names: these are translation keys; the translated label is not part of the model.
- Rendering, routing, dialogs, the `recent-tasks`, `review-tasks` and chart components and authentication are outside this model.
