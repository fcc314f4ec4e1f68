/**
 * The tasks page: its state (the page's copy of the task list and of the category list, the
 * search text, the filter record, the visible list and whether the add form is shown) and the
 * handlers that keep its copy of the task list in step with the task store. The effect that
 * re-runs `applyFilters` whenever the list, the search text or the filters change is folded into
 * every handler, so the visible list always equals the filter of the current inputs (`Valid`).
 */
module TasksPageComponent {
  import opened Entities
  import Keyed
  import opened TaskFilters
  import opened TaskApi
  import opened CategoryApi

  class TasksPage {
    const service: TaskService
    const categoryService: CategoryService
    var tasks: seq<Task>
    var categories: seq<Category>
    var searchQuery: string
    var filters: Filters
    var filteredTasks: seq<Task>
    var showAddForm: bool

    /** The visible list is the filter of the current list, search text and filters. */
    ghost predicate Valid()
      reads this
    {
      filteredTasks == ApplyFilters(tasks, searchQuery, filters)
    }

    /** The page's list is the store's list, and no two tasks share an `Id`. */
    ghost predicate InSync()
      reads this, service
    {
      tasks == service.tasks && Keyed.Unique(tasks, TaskKey)
    }

    /** Before loading: empty lists, no search, every filter on "all", the form hidden. */
    constructor (service: TaskService, categoryService: CategoryService)
      ensures this.service == service && this.categoryService == categoryService
      ensures tasks == [] && categories == [] && searchQuery == "" && filters == AllFilters && !showAddForm
      ensures Valid()
    {
      this.service := service;
      this.categoryService := categoryService;
      tasks := [];
      categories := [];
      searchQuery := "";
      filters := AllFilters;
      filteredTasks := [];
      showAddForm := false;
    }

    /** Recomputes the visible list, as the page's effect does after each state change. */
    method Refilter()
      modifies this`filteredTasks
      ensures Valid()
    {
      filteredTasks := ApplyFilters(tasks, searchQuery, filters);
    }

    /**
     * `loadData`: the page takes both stores' lists, whatever they hold. It is then in step with
     * the task store whenever that store's `Id`s are unique.
     */
    method LoadData()
      modifies this
      ensures tasks == service.tasks && categories == categoryService.categories
      ensures searchQuery == old(searchQuery) && filters == old(filters) && showAddForm == old(showAddForm)
      ensures Valid()
      ensures Keyed.Unique(service.tasks, TaskKey) ==> InSync()
    {
      tasks := service.GetAll();
      categories := categoryService.GetAll();
      Refilter();
    }

    /** The search box's `onSearchChange`. */
    method HandleSearchChange(query: string)
      modifies this
      ensures searchQuery == query && tasks == old(tasks) && filters == old(filters)
      ensures categories == old(categories) && showAddForm == old(showAddForm)
      ensures Valid()
    {
      searchQuery := query;
      Refilter();
    }

    /** `handleFilterChange`: the patch's keys override, the other dimensions stay. */
    method HandleFilterChange(patch: FilterPatch)
      modifies this
      ensures filters == MergeFilters(old(filters), patch)
      ensures tasks == old(tasks) && searchQuery == old(searchQuery) && showAddForm == old(showAddForm)
      ensures categories == old(categories)
      ensures Valid()
    {
      filters := MergeFilters(filters, patch);
      Refilter();
    }

    /** The "Add Task" button and the form's `onClose`. */
    method SetShowAddForm(show: bool)
      modifies this`showAddForm
      ensures showAddForm == show
    {
      showAddForm := show;
    }

    /**
     * `handleCreateTask`: the store creates the task, the page appends it at the end of its list
     * and hides the form. A page in step with the store stays in step.
     */
    method HandleCreateTask(data: TaskData, now: string)
      modifies this, service
      ensures service.tasks == old(service.tasks) + [NewTask(old(service.tasks), data, now)]
      ensures tasks == old(tasks) + [NewTask(old(service.tasks), data, now)]
      ensures searchQuery == old(searchQuery) && filters == old(filters) && !showAddForm
      ensures categories == old(categories)
      ensures Valid()
      ensures old(InSync()) && data.Id.None? ==> InSync()
    {
      var newTask := service.Create(data, now);
      tasks := tasks + [newTask];
      showAddForm := false;
      Refilter();
    }

    /**
     * `handleUpdateTask`: when the store returns no task the list is unchanged; otherwise every
     * entry with that `Id` is replaced by the returned task and the length is kept. The store
     * merges the patch into its first entry with that `Id`. A page whose list equals the store's
     * stays equal when that `Id` occurs at most once, and stays in step when the patch leaves
     * `Id` alone.
     */
    method HandleUpdateTask(id: int, updates: TaskPatch)
      modifies this, service
      ensures |tasks| == |old(tasks)|
      ensures Keyed.IndexOf(old(service.tasks), TaskKey, id).None? ==>
                tasks == old(tasks) && service.tasks == old(service.tasks)
      ensures Keyed.IndexOf(old(service.tasks), TaskKey, id).Some? ==>
                var i := Keyed.IndexOf(old(service.tasks), TaskKey, id).value;
                && service.tasks == old(service.tasks)[i := MergeTask(old(service.tasks)[i], updates)]
                && tasks == Keyed.ReplaceWhere(old(tasks), TaskKey, id, MergeTask(old(service.tasks)[i], updates))
      ensures searchQuery == old(searchQuery) && filters == old(filters) && showAddForm == old(showAddForm)
      ensures categories == old(categories)
      ensures Valid()
      ensures old(tasks == service.tasks && Keyed.AtMostOnce(tasks, TaskKey, id)) ==> tasks == service.tasks
      ensures old(InSync()) && updates.Id.None? ==> InSync()
    {
      ghost var before := tasks;
      var updatedTask := service.Update(id, updates);
      if updatedTask.Some? {
        tasks := Keyed.ReplaceWhere(tasks, TaskKey, id, updatedTask.value);
        if before == old(service.tasks) && Keyed.Unique(before, TaskKey) {
          Keyed.UniqueAtMostOnce(before, TaskKey, id);
        }
        if before == old(service.tasks) && Keyed.AtMostOnce(before, TaskKey, id) {
          Keyed.ReplaceWhereIsUpdateAt(before, TaskKey, id, updatedTask.value);
        }
      }
      Refilter();
    }

    /**
     * `handleDeleteTask`: when the store reports a removal every entry with that `Id` is dropped;
     * otherwise the list is unchanged. The store splices out its first entry with that `Id`. A
     * page whose list equals the store's stays equal when that `Id` occurs at most once, and a
     * page in step with the store stays in step.
     */
    method HandleDeleteTask(id: int)
      modifies this, service
      ensures Keyed.IndexOf(old(service.tasks), TaskKey, id).None? ==>
                tasks == old(tasks) && service.tasks == old(service.tasks)
      ensures Keyed.IndexOf(old(service.tasks), TaskKey, id).Some? ==>
                && service.tasks == Keyed.RemoveAt(old(service.tasks), Keyed.IndexOf(old(service.tasks), TaskKey, id).value)
                && tasks == Keyed.RemoveWhere(old(tasks), TaskKey, id)
      ensures searchQuery == old(searchQuery) && filters == old(filters) && showAddForm == old(showAddForm)
      ensures categories == old(categories)
      ensures Valid()
      ensures old(tasks == service.tasks && Keyed.AtMostOnce(tasks, TaskKey, id)) ==> tasks == service.tasks
      ensures old(InSync()) ==> InSync()
    {
      ghost var before := tasks;
      var success := service.Delete(id);
      if success {
        tasks := Keyed.RemoveWhere(tasks, TaskKey, id);
        if before == old(service.tasks) && Keyed.Unique(before, TaskKey) {
          Keyed.UniqueAtMostOnce(before, TaskKey, id);
        }
        if before == old(service.tasks) && Keyed.AtMostOnce(before, TaskKey, id) {
          Keyed.RemoveWhereIsRemoveAt(before, TaskKey, id);
        }
      }
      Refilter();
    }
  }
}
