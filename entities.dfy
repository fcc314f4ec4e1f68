/**
 * The two entities of the task manager and the shapes their services accept: the full record,
 * the data passed to `create` and the partial record passed to `update`. Object spread over
 * arbitrary keys becomes a merge over these fixed fields, with `None` for a key the caller left out.
 */
module Entities {
  import opened Options

  /** A stored task. */
  datatype Task = Task(
    Id: int,
    title: string,
    description: string,
    dueDate: string,
    priority: string,
    category: string,
    completed: bool,
    createdAt: string)

  function TaskKey(t: Task): int { t.Id }

  /**
   * What callers hand to `TaskService.create`: the form's five fields, and optionally an `Id`
   * (which wins over the generated one) and `completed`/`createdAt` (which the service overrides).
   */
  datatype TaskData = TaskData(
    Id: Option<int>,
    title: string,
    description: string,
    dueDate: string,
    priority: string,
    category: string,
    completed: Option<bool>,
    createdAt: Option<string>)

  /** What callers hand to `TaskService.update`: any subset of a task's keys. */
  datatype TaskPatch = TaskPatch(
    Id: Option<int>,
    title: Option<string>,
    description: Option<string>,
    dueDate: Option<string>,
    priority: Option<string>,
    category: Option<string>,
    completed: Option<bool>,
    createdAt: Option<string>)

  const NoTaskChanges := TaskPatch(None, None, None, None, None, None, None, None)

  /** `{ ...t, ...p }`: each key the patch carries overrides the task's, the others stay. */
  function MergeTask(t: Task, p: TaskPatch): Task {
    Task(
      p.Id.GetOr(t.Id),
      p.title.GetOr(t.title),
      p.description.GetOr(t.description),
      p.dueDate.GetOr(t.dueDate),
      p.priority.GetOr(t.priority),
      p.category.GetOr(t.category),
      p.completed.GetOr(t.completed),
      p.createdAt.GetOr(t.createdAt))
  }

  /** A key the patch leaves out keeps its old value; a key it carries takes the patch's value. */
  lemma MergeTaskFields(t: Task, p: TaskPatch)
    ensures p.Id.None? ==> MergeTask(t, p).Id == t.Id
    ensures p.title.None? ==> MergeTask(t, p).title == t.title
    ensures p.description.None? ==> MergeTask(t, p).description == t.description
    ensures p.dueDate.None? ==> MergeTask(t, p).dueDate == t.dueDate
    ensures p.priority.None? ==> MergeTask(t, p).priority == t.priority
    ensures p.category.None? ==> MergeTask(t, p).category == t.category
    ensures p.completed.None? ==> MergeTask(t, p).completed == t.completed
    ensures p.createdAt.None? ==> MergeTask(t, p).createdAt == t.createdAt
    ensures p.Id.Some? ==> MergeTask(t, p).Id == p.Id.value
    ensures p.title.Some? ==> MergeTask(t, p).title == p.title.value
    ensures p.description.Some? ==> MergeTask(t, p).description == p.description.value
    ensures p.dueDate.Some? ==> MergeTask(t, p).dueDate == p.dueDate.value
    ensures p.priority.Some? ==> MergeTask(t, p).priority == p.priority.value
    ensures p.category.Some? ==> MergeTask(t, p).category == p.category.value
    ensures p.completed.Some? ==> MergeTask(t, p).completed == p.completed.value
    ensures p.createdAt.Some? ==> MergeTask(t, p).createdAt == p.createdAt.value
  {
  }

  /** Merging an empty patch leaves a task as it was; merging the same patch twice is merging it once. */
  lemma MergeTaskIdentityAndIdempotence(t: Task, p: TaskPatch)
    ensures MergeTask(t, NoTaskChanges) == t
    ensures MergeTask(MergeTask(t, p), p) == MergeTask(t, p)
  {
  }

  /** A stored category; `taskCount` is a display hint the service never maintains. */
  datatype Category = Category(Id: int, name: string, color: string, taskCount: int)

  function CategoryKey(c: Category): int { c.Id }

  /** What callers hand to `CategoryService.create`. */
  datatype CategoryData = CategoryData(
    Id: Option<int>,
    name: string,
    color: string,
    taskCount: Option<int>)

  /** What callers hand to `CategoryService.update`. */
  datatype CategoryPatch = CategoryPatch(
    Id: Option<int>,
    name: Option<string>,
    color: Option<string>,
    taskCount: Option<int>)

  const NoCategoryChanges := CategoryPatch(None, None, None, None)

  /** `{ ...c, ...p }` for categories. */
  function MergeCategory(c: Category, p: CategoryPatch): Category {
    Category(p.Id.GetOr(c.Id), p.name.GetOr(c.name), p.color.GetOr(c.color), p.taskCount.GetOr(c.taskCount))
  }

  /**
   * A key the patch leaves out keeps its old value, a key it carries takes the patch's value,
   * and an empty patch changes nothing.
   */
  lemma MergeCategoryFields(c: Category, p: CategoryPatch)
    ensures p.Id.None? ==> MergeCategory(c, p).Id == c.Id
    ensures p.name.None? ==> MergeCategory(c, p).name == c.name
    ensures p.color.None? ==> MergeCategory(c, p).color == c.color
    ensures p.taskCount.None? ==> MergeCategory(c, p).taskCount == c.taskCount
    ensures p.Id.Some? ==> MergeCategory(c, p).Id == p.Id.value
    ensures p.name.Some? ==> MergeCategory(c, p).name == p.name.value
    ensures p.color.Some? ==> MergeCategory(c, p).color == p.color.value
    ensures p.taskCount.Some? ==> MergeCategory(c, p).taskCount == p.taskCount.value
    ensures MergeCategory(c, NoCategoryChanges) == c
  {
  }
}
