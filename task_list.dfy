/** components/tasks/task-list.tsx: the list view's filter and sort
    pipeline and its drag-and-drop handler. The view keeps the search term,
    the three filter values, the sort settings and the displayed list as
    state; an effect recomputes the displayed list whenever the tasks or a
    setting change. */
module TaskList {
  import opened Common
  import opened Entities
  import opened Sorting
  import Utils
  import TasksProvider

  /** `toLowerCase` on ASCII letters. */
  function LowerChar(c: char): char {
    if 'A' <= c <= 'Z' then (c as int + 32) as char else c
  }

  function Lower(s: string): (r: string)
    ensures |r| == |s|
  {
    seq(|s|, i requires 0 <= i < |s| => LowerChar(s[i]))
  }

  /** The search filter: the lower-cased title contains the lower-cased
      term, or there is a non-empty description that does. */
  predicate MatchesSearch(t: Task, term: string) {
    Includes(Lower(t.title), Lower(term))
    || (t.description.Some? && t.description.value != "" && Includes(Lower(t.description.value), Lower(term)))
  }

  /** Each stage of the pipeline as a predicate that holds for every task
      when the stage is switched off (empty term, falsy filter value). */
  function SearchStage(term: string): Task -> bool {
    (t: Task) => term == "" || MatchesSearch(t, term)
  }

  function StatusStage(status: Option<string>): Task -> bool {
    (t: Task) => !Truthy(status) || StatusName(t.status) == status.value
  }

  function CategoryStage(category: Option<string>): Task -> bool {
    (t: Task) => !Truthy(category) || t.categoryId == Some(category.value)
  }

  function PriorityStage(priority: Option<string>): Task -> bool {
    (t: Task) => !Truthy(priority) || PriorityName(t.priority) == priority.value
  }

  /** The four filters applied in the source's order. */
  function FilterTasks(tasks: seq<Task>, search: string, status: Option<string>,
                       category: Option<string>, priority: Option<string>): (r: seq<Task>)
    ensures |r| <= |tasks| && multiset(r) <= multiset(tasks)
  {
    Filter(Filter(Filter(Filter(tasks, SearchStage(search)), StatusStage(status)),
                  CategoryStage(category)), PriorityStage(priority))
  }

  /** What a kept task satisfies: every active filter. */
  predicate MatchesAll(t: Task, search: string, status: Option<string>,
                       category: Option<string>, priority: Option<string>)
  {
    && (search != "" ==> MatchesSearch(t, search))
    && (Truthy(status) ==> StatusName(t.status) == status.value)
    && (Truthy(category) ==> t.categoryId == Some(category.value))
    && (Truthy(priority) ==> PriorityName(t.priority) == priority.value)
  }

  /** A task is kept exactly when it is in the list and passes every active
      filter. */
  lemma FilterTasksMembership(tasks: seq<Task>, search: string, status: Option<string>,
                              category: Option<string>, priority: Option<string>, t: Task)
    ensures t in FilterTasks(tasks, search, status, category, priority) <==>
            t in tasks && MatchesAll(t, search, status, category, priority)
  {
    var r1 := Filter(tasks, SearchStage(search));
    var r2 := Filter(r1, StatusStage(status));
    var r3 := Filter(r2, CategoryStage(category));
    FilterMembership(tasks, SearchStage(search), t);
    FilterMembership(r1, StatusStage(status), t);
    FilterMembership(r2, CategoryStage(category), t);
    FilterMembership(r3, PriorityStage(priority), t);
  }

  /** The kept tasks keep their relative order. */
  lemma FilterTasksSubsequence(tasks: seq<Task>, search: string, status: Option<string>,
                               category: Option<string>, priority: Option<string>)
    ensures IsSubsequence(FilterTasks(tasks, search, status, category, priority), tasks)
  {
    var r1 := Filter(tasks, SearchStage(search));
    var r2 := Filter(r1, StatusStage(status));
    var r3 := Filter(r2, CategoryStage(category));
    var r4 := Filter(r3, PriorityStage(priority));
    FilterIsSubsequence(tasks, SearchStage(search));
    FilterIsSubsequence(r1, StatusStage(status));
    FilterIsSubsequence(r2, CategoryStage(category));
    FilterIsSubsequence(r3, PriorityStage(priority));
    SubsequenceTransitive(r2, r1, tasks);
    SubsequenceTransitive(r3, r2, tasks);
    SubsequenceTransitive(r4, r3, tasks);
  }

  /** Filtering by a stage is the same as filtering by its condition when
      the stage is on, and as not filtering when it is off. */
  lemma StageStep(s: seq<Task>, active: bool, stage: Task -> bool, cond: Task -> bool)
    requires forall t :: stage(t) <==> !active || cond(t)
    ensures (if active then Filter(s, cond) else s) == Filter(s, stage)
  {
    if active {
      FilterSame(s, cond, stage);
    } else {
      FilterAll(s, stage);
    }
  }

  /** With an empty search and no filter set, every task is kept, in order. */
  lemma NoFiltersKeepsAll(tasks: seq<Task>)
    ensures FilterTasks(tasks, "", None, None, None) == tasks
  {
    FilterAll(tasks, SearchStage(""));
    FilterAll(tasks, StatusStage(None));
    FilterAll(tasks, CategoryStage(None));
    FilterAll(tasks, PriorityStage(None));
  }

  datatype SortField = ByOrder | ByDueDate | ByPriority | ByCreatedAt | ByTitle
  datatype SortDirection = Asc | Desc

  /** `{ high: 0, medium: 1, low: 2 }`. */
  function PriorityRank(p: TaskPriority): int {
    match p
    case High => 0
    case Medium => 1
    case Low => 2
  }

  /** `a.localeCompare(b)`, approximated by code-point order: negative,
      zero or positive as `a` sorts before, with or after `b`. */
  function LexCompare(a: string, b: string): int
    decreases |a|
  {
    if a == [] && b == [] then 0
    else if a == [] then -1
    else if b == [] then 1
    else if a[0] < b[0] then -1
    else if a[0] > b[0] then 1
    else LexCompare(a[1..], b[1..])
  }

  /** `(a.dueDate || '') > (b.dueDate || '')`: a missing due date compares
      as the empty string, below every date. */
  predicate DueDateAfter(a: Task, b: Task) {
    match (a.dueDate, b.dueDate)
    case (None, _) => false
    case (Some(_), None) => true
    case (Some(x), Some(y)) => x > y
  }

  /** The comparison before the direction is applied. The due-date and
      creation-time comparisons answer 1 or -1, never 0. */
  function Comparison(field: SortField, a: Task, b: Task): int {
    match field
    case ByDueDate => if DueDateAfter(a, b) then 1 else -1
    case ByPriority => PriorityRank(a.priority) - PriorityRank(b.priority)
    case ByCreatedAt => if a.createdAt > b.createdAt then 1 else -1
    case ByTitle => LexCompare(a.title, b.title)
    case ByOrder => a.order - b.order
  }

  /** The comparator passed to `result.sort`. */
  function Comparator(field: SortField, dir: SortDirection): (c: (Task, Task) -> int)
    ensures forall a, b :: c(a, b) == 0 <==> Comparison(field, a, b) == 0
    ensures forall a, b :: c(a, b) < 0 <==> (if dir == Asc then Comparison(field, a, b) < 0 else Comparison(field, a, b) > 0)
  {
    (a: Task, b: Task) => if dir == Asc then Comparison(field, a, b) else -Comparison(field, a, b)
  }

  /** The sorted list: a permutation of the input, for every field and
      direction. */
  function SortTasks(tasks: seq<Task>, field: SortField, dir: SortDirection): (r: seq<Task>)
    ensures |r| == |tasks| && multiset(r) == multiset(tasks)
  {
    Sort(tasks, Comparator(field, dir))
  }

  function OrderKey(t: Task): int { t.order }
  function ReverseOrderKey(t: Task): int { -t.order }
  function RankKey(t: Task): int { PriorityRank(t.priority) }
  function ReverseRankKey(t: Task): int { -PriorityRank(t.priority) }

  /** Sorting by `order`: ascending gives non-decreasing `order` values,
      descending non-increasing ones. */
  lemma SortByOrder(tasks: seq<Task>)
    ensures SortedByKey(SortTasks(tasks, ByOrder, Asc), OrderKey)
    ensures SortedByKey(SortTasks(tasks, ByOrder, Desc), ReverseOrderKey)
  {
    assert IsKeyComparator(Comparator(ByOrder, Asc), OrderKey);
    assert IsKeyComparator(Comparator(ByOrder, Desc), ReverseOrderKey);
    SortSortedByKey(tasks, Comparator(ByOrder, Asc), OrderKey);
    SortSortedByKey(tasks, Comparator(ByOrder, Desc), ReverseOrderKey);
  }

  /** Sorting by priority: ascending puts high first, then medium, then
      low; descending the reverse. */
  lemma SortByPriority(tasks: seq<Task>)
    ensures SortedByKey(SortTasks(tasks, ByPriority, Asc), RankKey)
    ensures SortedByKey(SortTasks(tasks, ByPriority, Desc), ReverseRankKey)
    ensures forall i, j :: 0 <= i < j < |tasks| && SortTasks(tasks, ByPriority, Asc)[j].priority == High
              ==> SortTasks(tasks, ByPriority, Asc)[i].priority == High
  {
    assert IsKeyComparator(Comparator(ByPriority, Asc), RankKey);
    assert IsKeyComparator(Comparator(ByPriority, Desc), ReverseRankKey);
    SortSortedByKey(tasks, Comparator(ByPriority, Asc), RankKey);
    SortSortedByKey(tasks, Comparator(ByPriority, Desc), ReverseRankKey);
  }

  /** What a drag ends with: the id of the dragged task and the index of the
      drop target in the displayed (filtered and sorted) list. */
  datatype ReorderRequest = ReorderRequest(taskId: string, newIndex: int)

  /** The request `handleDragEnd` sends to the store: none when the card is
      dropped on itself; otherwise the dragged id and the target's position
      in the displayed list, not in the full task list. */
  function DragRequest(displayed: seq<Task>, activeId: string, overId: string): (r: Option<ReorderRequest>)
    ensures r.None? <==> activeId == overId
    ensures r.Some? ==> r.value.taskId == activeId
    ensures r.Some? && overId in TaskIds(displayed) ==>
              0 <= r.value.newIndex < |displayed| && displayed[r.value.newIndex].id == overId
  {
    if activeId == overId then None
    else
      var ids := TaskIds(displayed);
      var newIndex := IndexOf(ids, overId);
      assert 0 <= newIndex ==> ids[newIndex] == displayed[newIndex].id;
      Some(ReorderRequest(activeId, newIndex))
  }

  /** The index is a position in the displayed list, so with a filter on
      the store can move the task somewhere else: with `a` hidden by a
      category filter, dropping `c` onto `b` (index 0 of the view `[b, c]`)
      moves `c` in front of `a`, to the top of the full list. */
  lemma FilteredDragMovesPastHiddenTask(a: Task, b: Task, c: Task)
    requires a.id == "a" && b.id == "b" && c.id == "c"
    requires a.order == 0 && b.order == 1 && c.order == 2
    ensures DragRequest([b, c], "c", "b") == Some(ReorderRequest("c", 0))
    ensures TaskIds(TasksProvider.Reordered([a, b, c], "c", 0)) == ["c", "a", "b"]
  {
    assert TaskIds([b, c]) == ["b", "c"];
    var ids := TaskIds([a, b, c]);
    assert ids == ["a", "b", "c"];
    assert IndexOf(ids, "c") == 2 by {
      assert ids[1..] == ["b", "c"];
      assert ids[1..][1..] == ["c"];
    }
    var r := TasksProvider.Reordered([a, b, c], "c", 0);
    assert r[0].id == "c" && r[1].id == "a" && r[2].id == "b";
  }

  /** The filter half of the effect: `result` starts as a copy of the
      tasks and each active filter narrows it in turn. */
  method ApplyFilters(tasks: seq<Task>, search: string, status: Option<string>,
                      category: Option<string>, priority: Option<string>) returns (result: seq<Task>)
    ensures result == FilterTasks(tasks, search, status, category, priority)
  {
    result := tasks;
    var bySearch := (t: Task) => MatchesSearch(t, search);
    StageStep(result, search != "", SearchStage(search), bySearch);
    if search != "" {
      result := Filter(result, bySearch);
    }
    assert result == Filter(tasks, SearchStage(search));
    ghost var r1 := result;
    var byStatus := (t: Task) => status.Some? && StatusName(t.status) == status.value;
    StageStep(result, Truthy(status), StatusStage(status), byStatus);
    if Truthy(status) {
      result := Filter(result, byStatus);
    }
    assert result == Filter(r1, StatusStage(status));
    ghost var r2 := result;
    var byCategory := (t: Task) => t.categoryId == category;
    StageStep(result, Truthy(category), CategoryStage(category), byCategory);
    if Truthy(category) {
      result := Filter(result, byCategory);
    }
    assert result == Filter(r2, CategoryStage(category));
    ghost var r3 := result;
    var byPriority := (t: Task) => priority.Some? && PriorityName(t.priority) == priority.value;
    StageStep(result, Truthy(priority), PriorityStage(priority), byPriority);
    if Truthy(priority) {
      result := Filter(result, byPriority);
    }
    assert result == Filter(r3, PriorityStage(priority));
  }

  /** The view's state. */
  class TaskListView {
    var searchTerm: string
    var filterStatus: Option<string>
    var filterCategory: Option<string>
    var filterPriority: Option<string>
    var sortBy: SortField
    var sortDirection: SortDirection
    var filteredTasks: seq<Task>

    /** The initial state: nothing filtered but the category passed in,
        sorted by `order` ascending, nothing displayed yet. */
    constructor (initialCategoryFilter: Option<string>)
      ensures searchTerm == "" && filterStatus.None? && filterPriority.None?
      ensures filterCategory == initialCategoryFilter
      ensures sortBy == ByOrder && sortDirection == Asc && filteredTasks == []
    {
      searchTerm, filterStatus, filterCategory, filterPriority := "", None, initialCategoryFilter, None;
      sortBy, sortDirection, filteredTasks := ByOrder, Asc, [];
    }

    /** The filter and sort effect: filter, then sort, then display. */
    method Recompute(tasks: seq<Task>)
      modifies this
      ensures filteredTasks == SortTasks(FilterTasks(tasks, searchTerm, filterStatus, filterCategory, filterPriority),
                                         sortBy, sortDirection)
      ensures searchTerm == old(searchTerm) && filterStatus == old(filterStatus)
      ensures filterCategory == old(filterCategory) && filterPriority == old(filterPriority)
      ensures sortBy == old(sortBy) && sortDirection == old(sortDirection)
    {
      var result := ApplyFilters(tasks, searchTerm, filterStatus, filterCategory, filterPriority);
      result := Sort(result, Comparator(sortBy, sortDirection));
      filteredTasks := result;
    }

    /** `handleDragEnd`: dropping a card on itself does nothing; otherwise
        the displayed list is rearranged at once (`arrayMove`) and the
        request for the store is returned. Both ids are cards of the
        displayed list. */
    method HandleDragEnd(activeId: string, overId: string) returns (request: Option<ReorderRequest>)
      requires activeId in TaskIds(filteredTasks) && overId in TaskIds(filteredTasks)
      modifies this
      ensures request == DragRequest(old(filteredTasks), activeId, overId)
      ensures activeId == overId ==> filteredTasks == old(filteredTasks)
      ensures activeId != overId ==>
                var ids := TaskIds(old(filteredTasks));
                filteredTasks == Utils.Moved(old(filteredTasks), IndexOf(ids, activeId), IndexOf(ids, overId))
      ensures activeId != overId ==>
                multiset(filteredTasks) == multiset(old(filteredTasks))
                && filteredTasks[request.value.newIndex].id == activeId
      ensures searchTerm == old(searchTerm) && filterStatus == old(filterStatus)
      ensures filterCategory == old(filterCategory) && filterPriority == old(filterPriority)
      ensures sortBy == old(sortBy) && sortDirection == old(sortDirection)
    {
      request := DragRequest(filteredTasks, activeId, overId);
      if activeId != overId {
        var ids := TaskIds(filteredTasks);
        var oldIndex := IndexOf(ids, activeId);
        var newIndex := IndexOf(ids, overId);
        assert ids[oldIndex] == filteredTasks[oldIndex].id;
        Utils.MovedIsPermutation(filteredTasks, oldIndex, newIndex);
        filteredTasks := Utils.Moved(filteredTasks, oldIndex, newIndex);
      }
    }
  }
}
