/**
 * The add-task form: the form record with its defaults, per-field edits, the blank-title guard,
 * the `isSubmitting` flag and the submit button's disabled state. `handleSubmit` is split at its
 * `await`: `HandleSubmit` runs up to the call of `onSubmit` (returned as the data it is called
 * with), `SubmitSettled` is the `finally` that runs when that call settles, normally or by throwing.
 */
module AddTaskFormComponent {
  import opened Options
  import opened Entities
  import Text
  import Keyed
  import TaskCardComponent
  import TaskApi

  datatype FormData = FormData(title: string, description: string, dueDate: string, priority: string, category: string)

  /** The keys `handleChange` is called with. */
  datatype Field = Title | Description | DueDate | Priority | CategoryName

  /** The category a new form starts on: the first category's name, "Personal" when there is none or it is empty. */
  function DefaultCategory(categories: seq<Category>): (name: string)
    ensures name != ""
    ensures |categories| > 0 && categories[0].name != "" ==> name == categories[0].name
    ensures |categories| == 0 || categories[0].name == "" ==> name == "Personal"
  {
    if |categories| > 0 && categories[0].name != "" then categories[0].name else "Personal"
  }

  /** The form a fresh dialog shows: no title or description, due today, medium priority. */
  function InitialForm(categories: seq<Category>, today: string): (form: FormData)
    ensures form.title == "" && form.description == "" && form.dueDate == today
    ensures form.priority == "medium" && form.category == DefaultCategory(categories)
  {
    FormData("", "", today, "medium", DefaultCategory(categories))
  }

  function Get(form: FormData, field: Field): string {
    match field
    case Title => form.title
    case Description => form.description
    case DueDate => form.dueDate
    case Priority => form.priority
    case CategoryName => form.category
  }

  /** `{ ...prev, [field]: value }`. */
  function Set(form: FormData, field: Field, value: string): (r: FormData)
    ensures Get(r, field) == value
    ensures forall other :: other != field ==> Get(r, other) == Get(form, other)
  {
    match field
    case Title => form.(title := value)
    case Description => form.(description := value)
    case DueDate => form.(dueDate := value)
    case Priority => form.(priority := value)
    case CategoryName => form.(category := value)
  }

  /** The priority buttons, in display order, each with its dot colour. */
  const PriorityOptions: seq<(string, string)> := [("low", "bg-success"), ("medium", "bg-warning"), ("high", "bg-error")]

  /** The form's data as `TaskService.create` receives it: no `Id`, `completed` or `createdAt`. */
  function ToTaskData(form: FormData): TaskData {
    TaskData(None, form.title, form.description, form.dueDate, form.priority, form.category, None, None)
  }

  /**
   * What the page's `handleCreateTask` makes of a submitted form: a task with the next free `Id`,
   * the form's five fields, not completed and created now.
   */
  lemma SubmittedFormBecomesTask(tasks: seq<Task>, form: FormData, now: string)
    ensures var t := TaskApi.NewTask(tasks, ToTaskData(form), now);
            && t.Id == Keyed.NextKey(tasks, TaskKey)
            && t.title == form.title && t.description == form.description && t.dueDate == form.dueDate
            && t.priority == form.priority && t.category == form.category
            && !t.completed && t.createdAt == now
  {
  }

  /** The form's priority dots use the same colours as the task cards. */
  lemma PriorityOptionColorsMatchCards()
    ensures forall j :: 0 <= j < |PriorityOptions| ==>
              TaskCardComponent.PriorityColor(PriorityOptions[j].0) == PriorityOptions[j].1
  {
  }

  class AddTaskForm {
    var formData: FormData
    var isSubmitting: bool

    constructor (categories: seq<Category>, today: string)
      ensures formData == InitialForm(categories, today) && !isSubmitting
    {
      formData := InitialForm(categories, today);
      isSubmitting := false;
    }

    /** The submit button is disabled exactly when the title is blank or a submission is running. */
    predicate SubmitDisabled()
      reads this
    {
      !Text.HasText(formData.title) || isSubmitting
    }

    /** `handleChange`: sets one field and leaves the others. */
    method HandleChange(field: Field, value: string)
      modifies this
      ensures formData == Set(old(formData), field, value) && isSubmitting == old(isSubmitting)
    {
      formData := Set(formData, field, value);
    }

    /** A priority button: sets the priority to that option's value. */
    method ChoosePriority(option: nat)
      requires option < |PriorityOptions|
      modifies this
      ensures formData == old(formData).(priority := PriorityOptions[option].0)
      ensures formData.priority in {"low", "medium", "high"}
      ensures isSubmitting == old(isSubmitting)
    {
      HandleChange(Priority, PriorityOptions[option].0);
    }

    /**
     * Up to the `await`: a title that is blank once trimmed stops here, with no call and nothing
     * changed; otherwise `isSubmitting` is raised and `onSubmit` is called with the form's data.
     */
    method HandleSubmit() returns (submitted: Option<FormData>)
      modifies this
      ensures submitted.Some? <==> Text.HasText(old(formData).title)
      ensures submitted.Some? ==> submitted.value == old(formData) && isSubmitting
      ensures submitted.Some? ==> SubmitDisabled()
      ensures submitted.None? ==> isSubmitting == old(isSubmitting)
      ensures formData == old(formData)
    {
      if !Text.HasText(formData.title) {
        return None;
      }
      isSubmitting := true;
      submitted := Some(formData);
    }

    /**
     * The `finally`: when `onSubmit` settles `isSubmitting` is lowered, whether it returned or
     * threw; a throw is passed on to the caller.
     */
    method SubmitSettled(threw: bool) returns (rethrown: bool)
      modifies this
      ensures !isSubmitting && formData == old(formData)
      ensures rethrown == threw
    {
      isSubmitting := false;
      rethrown := threw;
    }
  }

  /** Submission protocol: while `onSubmit` runs the button is disabled; once it settles, only a blank title disables it. */
  method SubmitOnce(form: AddTaskForm, threw: bool) returns (submitted: Option<FormData>)
    requires !form.isSubmitting
    modifies form
    ensures submitted.Some? <==> Text.HasText(old(form.formData).title)
    ensures !form.isSubmitting && form.formData == old(form.formData)
    ensures form.SubmitDisabled() <==> !Text.HasText(form.formData.title)
  {
    submitted := form.HandleSubmit();
    if submitted.Some? {
      var _ := form.SubmitSettled(threw);
    }
  }
}
