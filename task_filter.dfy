/** components/tasks/task-filter.tsx: the filter popover as a state machine
    over the three filter values and the two sort settings. Each menu item
    calls one setter; the filter values are `string | null`. */
module TaskFilter {
  import opened Common
  import opened TaskList

  /** `[status, category, priority].filter(Boolean).length`. */
  function ActiveCount(status: Option<string>, category: Option<string>, priority: Option<string>): (n: nat)
    ensures n <= 3
    ensures n == 0 <==> !Truthy(status) && !Truthy(category) && !Truthy(priority)
    ensures n == 3 <==> Truthy(status) && Truthy(category) && Truthy(priority)
  {
    (if Truthy(status) then 1 else 0) + (if Truthy(category) then 1 else 0) + (if Truthy(priority) then 1 else 0)
  }

  /** Choosing a menu option: the selected option is deselected, any other
      becomes the selection. */
  function Toggled(current: Option<string>, option: string): (r: Option<string>)
    ensures r.None? <==> current == Some(option)
    ensures r.Some? ==> r == Some(option)
  {
    if current == Some(option) then None else Some(option)
  }

  /** Choosing the same option twice selects it if it was selected before
      and clears the filter otherwise. */
  lemma ToggledTwice(current: Option<string>, option: string)
    ensures Toggled(Toggled(current, option), option) == if current == Some(option) then current else None
  {
  }

  /** The direction item. */
  function Flipped(dir: SortDirection): (r: SortDirection)
    ensures r != dir
  {
    if dir == Asc then Desc else Asc
  }

  /** Flipping twice restores the direction. */
  lemma FlippedInvolution(dir: SortDirection)
    ensures Flipped(Flipped(dir)) == dir
  {
  }

  class FilterPanel {
    var status: Option<string>
    var category: Option<string>
    var priority: Option<string>
    var sortBy: SortField
    var sortDirection: SortDirection

    constructor (status: Option<string>, category: Option<string>, priority: Option<string>,
                 sortBy: SortField, sortDirection: SortDirection)
      ensures this.status == status && this.category == category && this.priority == priority
      ensures this.sortBy == sortBy && this.sortDirection == sortDirection
    {
      this.status, this.category, this.priority := status, category, priority;
      this.sortBy, this.sortDirection := sortBy, sortDirection;
    }

    /** The badge on the filter button. */
    function ActiveFilterCount(): nat
      reads this
    {
      ActiveCount(status, category, priority)
    }

    /** A status option: select it, or clear it if it was the selection. */
    method SelectStatus(option: string)
      modifies this
      ensures status == Toggled(old(status), option)
      ensures category == old(category) && priority == old(priority)
      ensures sortBy == old(sortBy) && sortDirection == old(sortDirection)
    {
      status := Toggled(status, option);
    }

    /** The status "All" item. */
    method ClearStatus()
      modifies this
      ensures status.None? && !Truthy(status)
      ensures category == old(category) && priority == old(priority)
      ensures sortBy == old(sortBy) && sortDirection == old(sortDirection)
    {
      status := None;
    }

    /** A category option (the category's id). */
    method SelectCategory(option: string)
      modifies this
      ensures category == Toggled(old(category), option)
      ensures status == old(status) && priority == old(priority)
      ensures sortBy == old(sortBy) && sortDirection == old(sortDirection)
    {
      category := Toggled(category, option);
    }

    method ClearCategory()
      modifies this
      ensures category.None? && !Truthy(category)
      ensures status == old(status) && priority == old(priority)
      ensures sortBy == old(sortBy) && sortDirection == old(sortDirection)
    {
      category := None;
    }

    method SelectPriority(option: string)
      modifies this
      ensures priority == Toggled(old(priority), option)
      ensures status == old(status) && category == old(category)
      ensures sortBy == old(sortBy) && sortDirection == old(sortDirection)
    {
      priority := Toggled(priority, option);
    }

    method ClearPriority()
      modifies this
      ensures priority.None? && !Truthy(priority)
      ensures status == old(status) && category == old(category)
      ensures sortBy == old(sortBy) && sortDirection == old(sortDirection)
    {
      priority := None;
    }

    /** A sort option: only `sortBy` changes. */
    method SelectSort(field: SortField)
      modifies this
      ensures sortBy == field && sortDirection == old(sortDirection)
      ensures status == old(status) && category == old(category) && priority == old(priority)
    {
      sortBy := field;
    }

    /** The direction item: only the direction changes, to the other one. */
    method FlipDirection()
      modifies this
      ensures sortDirection == Flipped(old(sortDirection)) && sortBy == old(sortBy)
      ensures status == old(status) && category == old(category) && priority == old(priority)
    {
      sortDirection := if sortDirection == Asc then Desc else Asc;
    }

    /** `handleReset`: the same fixed state whatever the state before, so
        resetting twice is resetting once. */
    method Reset()
      modifies this
      ensures status.None? && category.None? && priority.None?
      ensures sortBy == ByOrder && sortDirection == Asc
      ensures ActiveFilterCount() == 0
    {
      status, category, priority := None, None, None;
      sortBy, sortDirection := ByOrder, Asc;
    }
  }
}
