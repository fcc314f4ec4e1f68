/**
 * The task list: one card per visible task, or the empty state, plus the pending-deletion
 * state behind the confirmation dialog. Calling `onDeleteTask` is modelled as the `Id` the
 * handler returns (`None` when it does not call it).
 */
module TaskListComponent {
  import opened Options
  import opened Entities

  /** What the list renders. */
  datatype ListView = EmptyState | Cards(cards: seq<Task>)

  /** The empty state for an empty list; otherwise one card per task, in the list's order. */
  function Render(tasks: seq<Task>): (view: ListView)
    ensures view.EmptyState? <==> |tasks| == 0
    ensures view.Cards? ==> |view.cards| == |tasks| && forall j :: 0 <= j < |tasks| ==> view.cards[j] == tasks[j]
  {
    if |tasks| == 0 then EmptyState else Cards(tasks)
  }

  class TaskList {
    var taskToDelete: Option<Task>

    /** Nothing is pending at first. */
    constructor ()
      ensures taskToDelete.None?
    {
      taskToDelete := None;
    }

    /** The confirmation dialog is open exactly while a task is pending. */
    predicate IsModalOpen()
      reads this
    {
      taskToDelete.Some?
    }

    /** A card's delete button: its task becomes the pending one. */
    method HandleDeleteClick(task: Task)
      modifies this
      ensures taskToDelete == Some(task) && IsModalOpen()
    {
      taskToDelete := Some(task);
    }

    /**
     * Confirming: with a pending task, `onDeleteTask` is called once with its `Id` and nothing is
     * pending afterwards; with none, nothing happens.
     */
    method HandleConfirmDelete() returns (deleteCall: Option<int>)
      modifies this
      ensures old(taskToDelete).Some? ==> deleteCall == Some(old(taskToDelete).value.Id)
      ensures old(taskToDelete).None? ==> deleteCall.None?
      ensures taskToDelete.None? && !IsModalOpen()
    {
      match taskToDelete
      case Some(t) =>
        deleteCall := Some(t.Id);
        taskToDelete := None;
      case None =>
        deleteCall := None;
    }

    /** Cancelling: nothing is pending afterwards and `onDeleteTask` is not called. */
    method HandleCancelDelete()
      modifies this
      ensures taskToDelete.None? && !IsModalOpen()
    {
      taskToDelete := None;
    }
  }
}
