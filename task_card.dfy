/**
 * A task card: the completion toggle, the inline editor (`isEditing` and the `editData` draft)
 * and the colour lookups. Calling `onUpdate` is modelled as the `UpdateCall` a handler returns.
 */
module TaskCardComponent {
  import opened Options
  import opened Entities
  import Text

  /** The draft the inline editor holds. */
  datatype EditData = EditData(title: string, description: string)

  /** One call of `onUpdate(id, updates)`. */
  datatype UpdateCall = UpdateCall(id: int, updates: TaskPatch)

  /** The draft as an update: only `title` and `description`. */
  function EditPatch(d: EditData): TaskPatch {
    NoTaskChanges.(title := Some(d.title), description := Some(d.description))
  }

  /** The fallback colour of an unknown category. */
  const DefaultCategoryColor := "#6B7280"

  /** The dot colour of a priority; unknown priorities are grey. */
  function PriorityColor(priority: string): (color: string)
    ensures priority == "high" ==> color == "bg-error"
    ensures priority == "medium" ==> color == "bg-warning"
    ensures priority == "low" ==> color == "bg-success"
    ensures color == "bg-gray-400" <==> priority !in {"high", "medium", "low"}
  {
    match priority
    case "high" => "bg-error"
    case "medium" => "bg-warning"
    case "low" => "bg-success"
    case _ => "bg-gray-400"
  }

  /** `i` is the index `find` returns for `name`: the first category with that name. */
  predicate FirstNamed(categories: seq<Category>, name: string, i: int) {
    && 0 <= i < |categories|
    && categories[i].name == name
    && forall j :: 0 <= j < i ==> categories[j].name != name
  }

  /**
   * The colour of the first category with that name; the default when no category has the name
   * or the first such category has an empty colour.
   */
  function CategoryColor(categories: seq<Category>, name: string): (color: string)
    ensures color != ""
    ensures forall i :: FirstNamed(categories, name, i) ==>
              color == (if categories[i].color != "" then categories[i].color else DefaultCategoryColor)
    ensures color == DefaultCategoryColor ||
            exists i :: FirstNamed(categories, name, i) && categories[i].color == color
    ensures (forall j :: 0 <= j < |categories| ==> categories[j].name != name) ==> color == DefaultCategoryColor
  {
    if categories == [] then DefaultCategoryColor
    else if categories[0].name == name then
      (if categories[0].color != "" then categories[0].color else DefaultCategoryColor)
    else
      var rest := CategoryColor(categories[1..], name);
      assert rest != DefaultCategoryColor ==> exists i :: FirstNamed(categories, name, i) && categories[i].color == rest by {
        if rest != DefaultCategoryColor {
          var i :| FirstNamed(categories[1..], name, i) && categories[1..][i].color == rest;
          assert FirstNamed(categories, name, i + 1);
        }
      }
      rest
  }

  /** The due-date text colour; a completed task is always grey, whatever its date. */
  function DueDateColor(completed: bool, isPast: bool, isToday: bool): (color: string)
    ensures completed ==> color == "text-gray-500"
    ensures !completed && isPast && !isToday ==> color == "text-error"
    ensures !completed && isToday ==> color == "text-warning"
    ensures !completed && !isPast && !isToday ==> color == "text-gray-600"
  {
    if completed then "text-gray-500"
    else if isPast && !isToday then "text-error"
    else if isToday then "text-warning"
    else "text-gray-600"
  }

  class TaskCard {
    const task: Task
    var isEditing: bool
    var editData: EditData

    /** Not editing, with the draft taken from the task. */
    constructor (task: Task)
      ensures this.task == task
      ensures !isEditing && editData == EditData(task.title, task.description)
    {
      this.task := task;
      isEditing := false;
      editData := EditData(task.title, task.description);
    }

    /** The check button: asks to flip `completed`, and nothing else; the card's state is unchanged. */
    method HandleToggleComplete() returns (call: UpdateCall)
      ensures call.id == task.Id
      ensures call.updates == NoTaskChanges.(completed := Some(!task.completed))
    {
      call := UpdateCall(task.Id, NoTaskChanges.(completed := Some(!task.completed)));
    }

    /** The edit button. */
    method HandleEdit()
      modifies this
      ensures isEditing && editData == old(editData)
    {
      isEditing := true;
    }

    /** Typing in the title field of the editor. */
    method ChangeTitle(title: string)
      modifies this
      ensures editData == old(editData).(title := title) && isEditing == old(isEditing)
    {
      editData := editData.(title := title);
    }

    /** Typing in the description field of the editor. */
    method ChangeDescription(description: string)
      modifies this
      ensures editData == old(editData).(description := description) && isEditing == old(isEditing)
    {
      editData := editData.(description := description);
    }

    /**
     * Save: with a title that is not blank once trimmed, `onUpdate` gets the draft and editing
     * ends; otherwise no update is issued and the card stays as it is.
     */
    method HandleSave() returns (call: Option<UpdateCall>)
      modifies this
      ensures call.Some? <==> Text.HasText(old(editData).title)
      ensures call.Some? ==> call.value == UpdateCall(task.Id, EditPatch(old(editData))) && !isEditing
      ensures call.None? ==> isEditing == old(isEditing)
      ensures editData == old(editData)
    {
      if Text.HasText(editData.title) {
        call := Some(UpdateCall(task.Id, EditPatch(editData)));
        isEditing := false;
      } else {
        call := None;
      }
    }

    /** Cancel: the draft is reset to the task's text and editing ends; no update is issued. */
    method HandleCancel()
      modifies this
      ensures !isEditing && editData == EditData(task.title, task.description)
    {
      editData := EditData(task.title, task.description);
      isEditing := false;
    }
  }

  /** Toggling twice through the store restores the task: the second toggle undoes the first. */
  lemma ToggleTwiceRestores(t: Task)
    ensures var once := MergeTask(t, NoTaskChanges.(completed := Some(!t.completed)));
            MergeTask(once, NoTaskChanges.(completed := Some(!once.completed))) == t
  {
  }

  /** A save touches only the title and description of the stored task. */
  lemma SaveKeepsOtherFields(t: Task, d: EditData)
    ensures MergeTask(t, EditPatch(d)) == t.(title := d.title, description := d.description)
  {
  }
}
