# Task manager core, modelled in Dafny

This project models the logic of a single-page task manager written in React. Users create,
edit, complete, delete, search and filter tasks that are grouped into categories.

- **Stores.** Two in-memory stores, `TaskService` and `CategoryService`, each own one list of
  records keyed by an integer `Id`. `create` hands out `max(existing Ids, 0) + 1`, but an `Id`
  in the caller's data wins. It then forces `completed = false` and `createdAt` for tasks, and
  `taskCount = 0` for categories. `update` shallow-merges a patch into the first record with
  the `Id`. `delete` splices that record out. A missing `Id` gives `null` or `false`.
- **Filter engine.** The tasks page derives the visible list from its copy of the task list in
  four stages: a case-insensitive search over title and description, then status, then exact
  category, then exact priority. Its handlers keep that copy in step with the task store.
- **Sidebar counts.** The filter sidebar counts the tasks for each option, and each option
  button emits a one-key filter patch.
- **UI state.** The task list holds a pending deletion. Each task card holds an inline editor
  and works out its colours. The add-task form holds a record with defaults, a blank-title
  guard and an `isSubmitting` flag.

Layout, one module per source file, plus three shared ones:

| file | module | models |
|---|---|---|
| options.dfy | `Options` | `null`/absent values and keys a patch leaves out |
| text.dfy | `Text` | `toLowerCase`, `includes`, `trim` |
| keyed.dfy | `Keyed` | `findIndex`, `Math.max`, `splice`, and the page's `map`/`filter` over `Id`-keyed lists |
| entities.dfy | `Entities` | tasks, categories, the data `create` takes, the patches `update` takes, object spread |
| task_service.dfy | `TaskApi` | `src/services/api/TaskService.js` |
| category_service.dfy | `CategoryApi` | `src/services/api/CategoryService.js` |
| task_filters.dfy | `TaskFilters` | `applyFilters` and the filter record of `src/components/pages/TasksPage.jsx` |
| tasks_page.dfy | `TasksPageComponent` | the state and handlers of `src/components/pages/TasksPage.jsx` |
| filter_sidebar.dfy | `FilterSidebar` | `src/components/organisms/FilterSidebar.jsx` |
| task_list.dfy | `TaskListComponent` | `src/components/organisms/TaskList.jsx` |
| task_card.dfy | `TaskCardComponent` | `src/components/molecules/TaskCard.jsx` |
| add_task_form.dfy | `AddTaskFormComponent` | `src/components/organisms/AddTaskForm.jsx` |

How the source maps to the model:

- **Stores and component state.** The stores and the components that keep state are classes.
  Each class has the source's state fields, apart from the loading flag (see "Left out"), and
  one method per handler. Every method's postcondition gives the whole new state of the page
  or component, and of any store it changes, in terms of the old state.
- **Callbacks.** A callback a handler calls (`onUpdate`, `onDeleteTask`, `onSubmit`) becomes
  the value the method returns, describing the call it makes (`None` when it makes none).
- **Pure code.** Filtering, counting and colour lookup are functions. Lemmas state what the
  source promises about them.
- **Page and store agree.** The page's handlers change both the page and the store it was
  given. The page's `map`/`filter` by `Id` touches every entry with the `Id`, while the store's
  update and splice touch only the first. The two agree whenever the `Id` occurs at most once,
  so a page whose list equals the store's keeps it equal under that condition. With unique
  `Id`s throughout, a page in step with the store stays in step.

Three behaviours of the code that are easy to misread:

- **Reusing a freed `Id`.** A freed maximum `Id` is not always handed out again. The code
  recomputes `max(Ids, 0) + 1` from the records present. So deleting the record with the
  highest `Id` only brings that `Id` back when it is 1 or the next-highest `Id` is one below
  it (`Keyed.FreedMaxReused`). The model also proves that creating, deleting the created record
  and creating again reuses the `Id` (`Keyed.CreateDeleteRestores`, `TaskApi.CreateDeleteCreate`),
  and that a delete never raises the next `Id` (`Keyed.NextKeyAfterRemove`).
- **Merge order in `create`.** `create` does not merge the caller's fields over defaults. The
  code spreads `completed`/`createdAt`/`taskCount` after the caller's data, so those are
  forced. Only `Id` comes before the data, so an `Id` the caller supplies wins.
- **Field types.** The forms offer only low/medium/high priorities and refuse a blank title,
  but the stores enforce neither. These fields are free strings in the model.

## Model

| member | source | states |
|---|---|---|
| `Keyed.IndexOf` | src/services/api/TaskService.js:37 | the index of the first record with the key; `None` exactly when no record has it |
| `Keyed.MaxKey` | src/services/api/TaskService.js:26 | `Math.max(...Ids, 0)`: at least 0 and every key, and equal to some key unless it is 0 |
| `Keyed.NextKey` | src/services/api/TaskService.js:26 | the generated key is at least 1, above every key present, 1 on an empty list, and otherwise one more than a key present, so exactly `max(Ids, 0) + 1` |
| `Keyed.RemoveAt` | src/services/api/TaskService.js:49 | `splice(i, 1)`: one shorter, the elements before `i` kept, the ones after shifted down by one |
| `Keyed.ReplaceWhere` | src/components/pages/TasksPage.jsx:91-93 | the page's `map`: same length, every record with the key becomes the new one, the others are unchanged |
| `Keyed.RemoveWhere` | src/components/pages/TasksPage.jsx:107 | the page's `filter`: no longer than before and no record with the key remains |
| `Keyed.RemoveWhereMembers` | src/components/pages/TasksPage.jsx:107 | a record is kept by the page's `filter` exactly when it was in the list and its key differs from `id` |
| `Keyed.RemoveWhereIsSubsequence` | src/components/pages/TasksPage.jsx:107 | the records the page's `filter` keeps stay in their original order |
| `Keyed.RemoveWhereAppend` | src/components/pages/TasksPage.jsx:107 | one more record at the end of the list is kept, once, exactly when its key is not `id`, so every copy of a surviving record is kept |
| `Keyed.RemoveWhereAbsent` | src/components/pages/TasksPage.jsx:107 | with no record keyed `id`, the page's `filter` keeps the list as it is |
| `Keyed.RemoveWhereIsRemoveAt` | src/components/pages/TasksPage.jsx:105-107 | when `id` occurs at most once, removing every match (page) equals splicing out the first match (store) |
| `Keyed.ReplaceWhereAbsent` | src/components/pages/TasksPage.jsx:91-93 | with no record keyed `id`, the page's `map` keeps the list as it is |
| `Keyed.ReplaceWhereIsUpdateAt` | src/components/pages/TasksPage.jsx:89-93 | when `id` occurs at most once, replacing every match (page) equals assigning at the first match (store) |
| `Keyed.UniqueAtMostOnce` | src/components/pages/TasksPage.jsx:87-113 | with unique keys, every `id` the page's handlers receive occurs at most once |
| `Keyed.UniqueAppend` | src/services/api/TaskService.js:26-31 | appending a record whose key exceeds all keys keeps keys unique |
| `Keyed.UniqueRemoveAt` | src/services/api/TaskService.js:49 | splicing a record out keeps keys unique |
| `Keyed.UniqueUpdateAt` | src/services/api/TaskService.js:40 | overwriting a record by one with the same key keeps keys unique |
| `Keyed.NextKeyAfterRemove` | src/services/api/TaskService.js:26 | deleting a record never raises the `Id` the next `create` hands out |
| `Keyed.FreedMaxReused` | src/services/api/TaskService.js:26 | after deleting the record with the largest key, the next `create` hands that key out again exactly when it is 1 or another record holds the key one below it |
| `Keyed.CreateDeleteRestores` | src/services/api/TaskService.js:26-49 | a record created with the generated key is found at the end; splicing it out restores the list, so the next `create` reuses its key |
| `Entities.MergeTaskFields` | src/services/api/TaskService.js:40 | shallow merge: each of the eight keys keeps its value when the patch leaves it out and takes the patch's value when the patch carries it |
| `Entities.MergeTaskIdentityAndIdempotence` | src/services/api/TaskService.js:40 | an empty patch changes nothing; merging a patch twice equals merging it once |
| `Entities.MergeCategoryFields` | src/services/api/CategoryService.js:39 | shallow merge for categories: each of the four keys keeps its value when absent from the patch and takes the patch's value when present; an empty patch changes nothing |
| `TaskApi.NewTask` | src/services/api/TaskService.js:25-30 | the new task's `Id` exceeds every existing `Id` (1 on an empty store) unless the data supplies one, which wins; `completed` is false and `createdAt` is the clock value whatever was passed; the other fields are the caller's |
| `TaskApi.TaskService.constructor` | src/services/api/TaskService.js:4-6 | the store starts as the seed list |
| `TaskApi.TaskService.GetAll` | src/services/api/TaskService.js:12-15 | returns the stored tasks in insertion order and changes nothing |
| `TaskApi.TaskService.GetById` | src/services/api/TaskService.js:17-21 | returns the first task with that `Id`, or `None` exactly when there is none; changes nothing |
| `TaskApi.TaskService.Create` | src/services/api/TaskService.js:23-33 | appends the new task at the end (length grows by 1, earlier entries unchanged) and returns it; unique `Id`s stay unique when no `Id` is supplied |
| `TaskApi.TaskService.Update` | src/services/api/TaskService.js:35-42 | no match: `None` and the store unchanged; a match: only the first matching index changes, to the old task merged with the patch, which is returned; length kept |
| `TaskApi.TaskService.Delete` | src/services/api/TaskService.js:44-51 | `true` exactly when some task has the `Id`; then exactly the first match is spliced out and the rest keep their order; otherwise nothing changes |
| `TaskApi.CreateDeleteCreate` | src/services/api/TaskService.js:23-51 | create, delete the created task, create again: both creates hand out the same `Id` |
| `CategoryApi.NewCategory` | src/services/api/CategoryService.js:25-29 | the new category's `Id` exceeds every existing `Id` (1 on an empty store) unless the data supplies one; `taskCount` is 0 whatever was passed |
| `CategoryApi.CategoryService.constructor` | src/services/api/CategoryService.js:4-6 | the store starts as the seed list |
| `CategoryApi.CategoryService.GetAll` | src/services/api/CategoryService.js:12-15 | returns the stored categories in insertion order and changes nothing |
| `CategoryApi.CategoryService.GetById` | src/services/api/CategoryService.js:17-21 | returns the first category with that `Id`, or `None` exactly when there is none; changes nothing |
| `CategoryApi.CategoryService.Create` | src/services/api/CategoryService.js:23-32 | appends the new category and returns it; unique `Id`s stay unique when no `Id` is supplied |
| `CategoryApi.CategoryService.Update` | src/services/api/CategoryService.js:34-41 | no match: `None`, store unchanged; a match: only that category changes, merged with the patch, and is returned |
| `CategoryApi.CategoryService.Delete` | src/services/api/CategoryService.js:43-50 | `true` exactly when some category has the `Id`; then exactly the first match is removed, order kept; otherwise nothing changes |
| `TaskFilters.MergeFiltersOverridesOnlyPresentKeys` | src/components/pages/TasksPage.jsx:115-117 | `handleFilterChange`'s merge overrides exactly the keys in the patch and keeps the other dimensions |
| `TaskFilters.Keep` | src/components/pages/TasksPage.jsx:50-71 | one `filter` stage: no longer than its input and every kept task meets the condition |
| `TaskFilters.ApplyFilters` | src/components/pages/TasksPage.jsx:45-74 | the visible list is never longer than the task list |
| `TaskFilters.KeepMembers` | src/components/pages/TasksPage.jsx:50-71 | a stage keeps a task exactly when it is in the input and meets the condition |
| `TaskFilters.KeepIsSubsequence` | src/components/pages/TasksPage.jsx:50-71 | a stage's output is a subsequence of its input |
| `TaskFilters.KeepEverything` | src/components/pages/TasksPage.jsx:50-71 | a stage whose condition every task meets returns its input |
| `TaskFilters.KeepKeep` | src/components/pages/TasksPage.jsx:46-71 | two stages in a row equal one stage with both conditions |
| `TaskFilters.KeepCommutes` | src/components/pages/TasksPage.jsx:46-71 | the order of two stages does not change the result |
| `TaskFilters.KeepSameCondition` | src/components/pages/TasksPage.jsx:58-60 | conditions that agree on every task keep the same tasks (any status other than "completed" means open) |
| `TaskFilters.KeepIdempotent` | src/components/pages/TasksPage.jsx:50-71 | a stage applied to its own output changes nothing |
| `TaskFilters.KeepStatusSplits` | src/components/pages/TasksPage.jsx:58-60 | the completed tasks and the open ones together are the whole list |
| `TaskFilters.KeepAppend` | src/components/pages/TasksPage.jsx:50-71 | a stage over a list with one more task keeps that task at the end exactly when it meets the condition |
| `TaskFilters.ApplyFiltersIsKeep` | src/components/pages/TasksPage.jsx:45-74 | the four staged filters equal one pass with the conjunction of the active conditions |
| `TaskFilters.ApplyFiltersMembers` | src/components/pages/TasksPage.jsx:49-71 | a task is visible iff it is in the list and: the query is empty or the lowered title or description contains the lowered query; the status is "all", or "completed" and the task is completed, or another value and it is open; the category is "all" or equal; the priority is "all" or equal |
| `TaskFilters.ApplyFiltersIsSubsequence` | src/components/pages/TasksPage.jsx:46-73 | the visible list is a subsequence of the task list, keeping relative order |
| `TaskFilters.ApplyFiltersOff` | src/components/pages/TasksPage.jsx:49-71 | with an empty query and every dimension "all" the visible list is the task list |
| `TaskFilters.ApplyFiltersIdempotent` | src/components/pages/TasksPage.jsx:45-74 | filtering the visible list again with the same inputs gives the same list |
| `TaskFilters.ActiveExample` | src/components/pages/TasksPage.jsx:57-61 | of an open and a completed task, status "active" shows only the open one |
| `Text.Lower` | src/components/pages/TasksPage.jsx:51-52 | `toLowerCase` keeps the length and lowers each character on its own |
| `Text.ContainsIffOccurs` | src/components/pages/TasksPage.jsx:51-52 | `includes` holds exactly when the needle starts at some index of the string |
| `Text.HasTextIffNonSpace` | src/components/organisms/AddTaskForm.jsx:18 | `trim()` is non-empty exactly when the string holds a character that is not white space |
| `FilterSidebar.CategoryOptions` | src/components/organisms/FilterSidebar.jsx:107-132 | the category buttons are "all" followed by each category's name in order |
| `FilterSidebar.CountByCategory` | src/components/organisms/FilterSidebar.jsx:25-28 | between 0 and the number of tasks; the number of tasks for "all" |
| `FilterSidebar.CountByStatus` | src/components/organisms/FilterSidebar.jsx:30-34 | between 0 and the number of tasks; the number of tasks for "all" |
| `FilterSidebar.CountByPriority` | src/components/organisms/FilterSidebar.jsx:36-39 | between 0 and the number of tasks; the number of tasks for "all" |
| `FilterSidebar.ClicksChangeOneDimension` | src/components/organisms/FilterSidebar.jsx:75-169 | a status, category or priority button sets its own dimension and leaves the other two |
| `FilterSidebar.StatusCountsSplit` | src/components/organisms/FilterSidebar.jsx:30-34 | the "completed" count plus the "active" count is the number of tasks, the count beside the first status option |
| `FilterSidebar.CountsAgreeWithFilter` | src/components/organisms/FilterSidebar.jsx:25-39 | each count equals the length of the visible list with no search and only that option chosen |
| `FilterSidebar.PriorityCountsBoundedByAll` | src/components/organisms/FilterSidebar.jsx:18-23 | the counts beside high, medium and low add up to at most the "all" count, and to exactly it when every task has one of those priorities |
| `FilterSidebar.CountByPriorityAppend` | src/components/organisms/FilterSidebar.jsx:36-39 | a further task raises a priority count by one exactly when its priority equals the option (or the option is "all") |
| `FilterSidebar.CountByCategoryAppend` | src/components/organisms/FilterSidebar.jsx:25-28 | a further task raises a category count by one exactly when its category equals the option (or the option is "all") |
| `TasksPageComponent.TasksPage.constructor` | src/components/pages/TasksPage.jsx:10-20 | the page starts with no tasks, no categories, no search, every filter "all", the form hidden, and an empty visible list |
| `TasksPageComponent.TasksPage.Refilter` | src/components/pages/TasksPage.jsx:26-28 | after any change, the visible list is `applyFilters` of the current list, search text and filters |
| `TasksPageComponent.TasksPage.LoadData` | src/components/pages/TasksPage.jsx:30-43 | whatever the stores hold, the page's task and category lists become the stores' lists; page and task store are in step when the store's `Id`s are unique |
| `TasksPageComponent.TasksPage.HandleSearchChange` | src/components/pages/TasksPage.jsx:151 | sets the search text and nothing else; the visible list follows |
| `TasksPageComponent.TasksPage.HandleFilterChange` | src/components/pages/TasksPage.jsx:115-117 | merges the patch into the filters and keeps the list and the search text |
| `TasksPageComponent.TasksPage.SetShowAddForm` | src/components/pages/TasksPage.jsx:170 | the add button shows the form and closing hides it |
| `TasksPageComponent.TasksPage.HandleCreateTask` | src/components/pages/TasksPage.jsx:76-85 | the created task is appended to the store and to the page's list and the form closes; a page in step stays in step |
| `TasksPageComponent.TasksPage.HandleUpdateTask` | src/components/pages/TasksPage.jsx:87-101 | no change to page or store when the store finds no task; otherwise the store merges the patch into its first match and every page entry with the `Id` becomes that merged task; equal lists stay equal when the `Id` occurs at most once, and a page in step stays in step when the patch keeps `Id` |
| `TasksPageComponent.TasksPage.HandleDeleteTask` | src/components/pages/TasksPage.jsx:103-113 | no change to page or store when no task has the `Id`; otherwise the store splices out its first match and the page drops every entry with the `Id`; equal lists stay equal when the `Id` occurs at most once, and a page in step stays in step |
| `TaskListComponent.Render` | src/components/organisms/TaskList.jsx:25-54 | the empty state exactly for an empty list; otherwise one card per task, in the list's order |
| `TaskListComponent.TaskList.constructor` | src/components/organisms/TaskList.jsx:8 | nothing is pending at first |
| `TaskListComponent.TaskList.HandleDeleteClick` | src/components/organisms/TaskList.jsx:10-12 | the clicked task becomes the pending one and the confirmation dialog is open |
| `TaskListComponent.TaskList.HandleConfirmDelete` | src/components/organisms/TaskList.jsx:14-19 | with a pending task, one delete call with its `Id`, then nothing pending; with none, no call |
| `TaskListComponent.TaskList.HandleCancelDelete` | src/components/organisms/TaskList.jsx:21-23 | nothing pending, dialog closed, no delete call |
| `TaskCardComponent.PriorityColor` | src/components/molecules/TaskCard.jsx:51-58 | high is `bg-error`, medium `bg-warning`, low `bg-success`; exactly the other values get `bg-gray-400` |
| `TaskCardComponent.CategoryColor` | src/components/molecules/TaskCard.jsx:60-63 | never empty; the first category with that name gives its colour, or `#6B7280` when that colour is empty; an unknown name gets `#6B7280` |
| `TaskCardComponent.DueDateColor` | src/components/molecules/TaskCard.jsx:43-49 | a completed task is grey whatever its date; otherwise overdue is red, today amber, later grey |
| `TaskCardComponent.TaskCard.constructor` | src/components/molecules/TaskCard.jsx:7-11 | not editing, and the draft holds the task's title and description |
| `TaskCardComponent.TaskCard.HandleToggleComplete` | src/components/molecules/TaskCard.jsx:13-15 | one update call for the task's `Id` whose patch sets only `completed`, to its negation |
| `TaskCardComponent.TaskCard.HandleEdit` | src/components/molecules/TaskCard.jsx:17-19 | editing starts and the draft is kept |
| `TaskCardComponent.TaskCard.ChangeTitle` | src/components/molecules/TaskCard.jsx:100 | typing changes only the draft's title |
| `TaskCardComponent.TaskCard.ChangeDescription` | src/components/molecules/TaskCard.jsx:106 | typing changes only the draft's description |
| `TaskCardComponent.TaskCard.HandleSave` | src/components/molecules/TaskCard.jsx:21-26 | an update with the draft and leaving edit mode exactly when the trimmed title is non-empty; otherwise no update and the mode is kept |
| `TaskCardComponent.TaskCard.HandleCancel` | src/components/molecules/TaskCard.jsx:28-34 | the draft returns to the task's text and editing ends, with no update |
| `TaskCardComponent.ToggleTwiceRestores` | src/components/molecules/TaskCard.jsx:13-15 | two toggles merged into the stored task give the task back |
| `TaskCardComponent.SaveKeepsOtherFields` | src/components/molecules/TaskCard.jsx:21-26 | a save changes only the stored task's title and description |
| `AddTaskFormComponent.DefaultCategory` | src/components/organisms/AddTaskForm.jsx:12 | the first category's name, or "Personal" when there is no category or that name is empty |
| `AddTaskFormComponent.InitialForm` | src/components/organisms/AddTaskForm.jsx:7-13 | empty title and description, today's date, priority "medium", the default category |
| `AddTaskFormComponent.Set` | src/components/organisms/AddTaskForm.jsx:28-30 | the chosen field takes the value and every other field keeps its value |
| `AddTaskFormComponent.SubmittedFormBecomesTask` | src/services/api/TaskService.js:25-30 | a submitted form becomes a task with the next free `Id`, the form's five fields, not completed and created now |
| `AddTaskFormComponent.PriorityOptionColorsMatchCards` | src/components/organisms/AddTaskForm.jsx:32-36 | each priority button's dot colour is the colour a task card shows for that priority |
| `AddTaskFormComponent.AddTaskForm.constructor` | src/components/organisms/AddTaskForm.jsx:7-14 | the form starts with the initial data and not submitting |
| `AddTaskFormComponent.AddTaskForm.HandleChange` | src/components/organisms/AddTaskForm.jsx:28-30 | only the named field changes |
| `AddTaskFormComponent.AddTaskForm.ChoosePriority` | src/components/organisms/AddTaskForm.jsx:137 | a priority button sets `priority` to its value, which is always low, medium or high |
| `AddTaskFormComponent.AddTaskForm.HandleSubmit` | src/components/organisms/AddTaskForm.jsx:16-22 | no call and nothing changed when the trimmed title is empty; otherwise `isSubmitting` is raised, so the button is disabled, and `onSubmit` is called with the form data |
| `AddTaskFormComponent.AddTaskForm.SubmitSettled` | src/components/organisms/AddTaskForm.jsx:23-25 | `isSubmitting` is lowered whether `onSubmit` returned or threw, and a throw is passed on |
| `AddTaskFormComponent.SubmitOnce` | src/components/organisms/AddTaskForm.jsx:16-26 | a whole submission: `onSubmit` is called exactly when the title has text; once it settles the flag is down and the button is disabled only for a blank title |

## Left out

- Latency and `async`: the stores' `delay` timers are left out and every operation is synchronous. Interleavings of calls in flight, last-write-wins between them, and `Promise.all` in `loadData` are concurrency and are not modelled.
- The clock: `createdAt` (TaskService.js:29) and the form's default due date (AddTaskForm.jsx:10) are parameters. Date formatting and the `isPast`/`isToday` tests of a card are parameters of `DueDateColor`.
- The seed files of both stores are not part of this model; the stores take their initial list as a constructor argument.
- `parseInt` coercion: `Id`s are integers throughout, so the store's `parseInt(id)` and the page's strict `===` compare the same values.
- Object spread over arbitrary keys: records have fixed fields. `create` data always carries the form's five fields; a caller omitting one, or a patch key set explicitly to `undefined`, is not modelled.
- Aliasing: `getAll` and `getById` hand out records shared with, or copied from, the store; records are immutable values here, so isolation of returned copies is neither modelled nor claimed.
- `Text.Lower`: lowers ASCII capitals only; Unicode case mapping of `toLowerCase` is not modelled.
- Exceptions: the stores never throw in the model, so the page handlers' `catch` branches are unreachable; toasts, the loading flag, the header's count text, animations and all markup are left out.
- `TaskCardComponent.TaskCard`: the card's task is fixed for the card's lifetime; a new `task` prop arriving while `editData` keeps its old draft is not modelled.
- The form's calls of `onClose` (the close button, Cancel and the backdrop click) and `preventDefault` are presentation and are left out; the page's handler they call is `TasksPage.SetShowAddForm`.
- Header.jsx, EmptyState.jsx, ConfirmationModal.jsx, Layout.jsx, routes.jsx and tailwind.config.js are presentation and are not part of this model.
- The case-insensitive search is proved in general by `TaskFilters.ApplyFiltersMembers`. A concrete example of it over literal strings is not included.
