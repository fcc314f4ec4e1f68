/**
 * The filter sidebar: the number shown beside each filter option, and the one-key filter patch
 * each option button emits. The counts are taken over the whole task list, ignoring the search
 * text and the other dimensions.
 */
module FilterSidebar {
  import opened Options
  import opened Entities
  import opened TaskFilters

  /** The status buttons, in display order. */
  const StatusOptions: seq<string> := ["all", "active", "completed"]

  /** The priority buttons, in display order. */
  const PriorityOptions: seq<string> := ["all", "high", "medium", "low"]

  /** The category buttons: "all" first, then one per category, in the categories' order. */
  function CategoryOptions(categories: seq<Category>): (options: seq<string>)
    ensures |options| == |categories| + 1 && options[0] == "all"
    ensures forall j :: 0 <= j < |categories| ==> options[j + 1] == categories[j].name
  {
    ["all"] + Names(categories)
  }

  function Names(categories: seq<Category>): (names: seq<string>)
    ensures |names| == |categories|
    ensures forall j :: 0 <= j < |categories| ==> names[j] == categories[j].name
  {
    if categories == [] then [] else [categories[0].name] + Names(categories[1..])
  }

  function CountByCategory(tasks: seq<Task>, name: string): (n: nat)
    ensures n <= |tasks|
    ensures name == "all" ==> n == |tasks|
  {
    if name == "all" then |tasks| else |Keep(tasks, InCategory(name))|
  }

  function CountByStatus(tasks: seq<Task>, status: string): (n: nat)
    ensures n <= |tasks|
    ensures status == "all" ==> n == |tasks|
  {
    if status == "all" then |tasks|
    else if status == "completed" then |Keep(tasks, HasStatus("completed"))|
    else |Keep(tasks, HasStatus("active"))|
  }

  function CountByPriority(tasks: seq<Task>, priority: string): (n: nat)
    ensures n <= |tasks|
    ensures priority == "all" ==> n == |tasks|
  {
    if priority == "all" then |tasks| else |Keep(tasks, HasPriority(priority))|
  }

  /** The patch a status button emits: only `status`. */
  function StatusClick(value: string): FilterPatch {
    FilterPatch(Some(value), None, None)
  }

  /** The patch a category button emits: only `category`. */
  function CategoryClick(value: string): FilterPatch {
    FilterPatch(None, Some(value), None)
  }

  /** The patch a priority button emits: only `priority`. */
  function PriorityClick(value: string): FilterPatch {
    FilterPatch(None, None, Some(value))
  }

  /** Choosing an option in one dimension sets that dimension and never resets the other two. */
  lemma ClicksChangeOneDimension(f: Filters, value: string)
    ensures MergeFilters(f, StatusClick(value)) == f.(status := value)
    ensures MergeFilters(f, CategoryClick(value)) == f.(category := value)
    ensures MergeFilters(f, PriorityClick(value)) == f.(priority := value)
  {
  }

  /** The completed count and the active count add up to the total the "all" button shows. */
  lemma StatusCountsSplit(tasks: seq<Task>)
    ensures CountByStatus(tasks, "completed") + CountByStatus(tasks, "active") == |tasks|
    ensures CountByStatus(tasks, StatusOptions[1]) + CountByStatus(tasks, StatusOptions[2]) ==
            CountByStatus(tasks, StatusOptions[0])
  {
    KeepStatusSplits(tasks, "active");
  }

  /**
   * The high, medium and low counts together never exceed the count beside "All Priorities",
   * and reach it when every task has one of those three priorities (the store accepts others).
   */
  lemma {:induction false} PriorityCountsBoundedByAll(tasks: seq<Task>)
    ensures CountByPriority(tasks, PriorityOptions[1]) + CountByPriority(tasks, PriorityOptions[2]) +
            CountByPriority(tasks, PriorityOptions[3]) <= CountByPriority(tasks, PriorityOptions[0])
    ensures (forall j :: 0 <= j < |tasks| ==> tasks[j].priority in {"high", "medium", "low"}) ==>
            CountByPriority(tasks, PriorityOptions[1]) + CountByPriority(tasks, PriorityOptions[2]) +
            CountByPriority(tasks, PriorityOptions[3]) == CountByPriority(tasks, PriorityOptions[0])
  {
    if tasks != [] {
      var init, t := tasks[..|tasks| - 1], tasks[|tasks| - 1];
      assert tasks == init + [t];
      PriorityCountsBoundedByAll(init);
      CountByPriorityAppend(init, t, "high");
      CountByPriorityAppend(init, t, "medium");
      CountByPriorityAppend(init, t, "low");
    }
  }

  /**
   * Each count is the length of the visible list when only that option is chosen: no search and
   * the other two dimensions on "all".
   */
  lemma CountsAgreeWithFilter(tasks: seq<Task>, value: string)
    ensures CountByStatus(tasks, value) == |ApplyFilters(tasks, "", MergeFilters(AllFilters, StatusClick(value)))|
    ensures CountByCategory(tasks, value) == |ApplyFilters(tasks, "", MergeFilters(AllFilters, CategoryClick(value)))|
    ensures CountByPriority(tasks, value) == |ApplyFilters(tasks, "", MergeFilters(AllFilters, PriorityClick(value)))|
  {
    if value != "completed" {
      KeepSameCondition(tasks, HasStatus(value), HasStatus("active"));
    }
  }

  /**
   * A priority count is a tally of the tasks with exactly that priority: adding a task raises the
   * count by one when its priority matches (or the option is "all") and leaves it otherwise.
   */
  lemma CountByPriorityAppend(tasks: seq<Task>, t: Task, priority: string)
    ensures CountByPriority(tasks + [t], priority) ==
            CountByPriority(tasks, priority) + (if priority == "all" || t.priority == priority then 1 else 0)
  {
    KeepAppend(tasks, t, HasPriority(priority));
  }

  /** A category count is a tally of the tasks naming exactly that category. */
  lemma CountByCategoryAppend(tasks: seq<Task>, t: Task, name: string)
    ensures CountByCategory(tasks + [t], name) ==
            CountByCategory(tasks, name) + (if name == "all" || t.category == name then 1 else 0)
  {
    KeepAppend(tasks, t, InCategory(name));
  }
}
