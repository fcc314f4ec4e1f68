/**
 * The in-memory task store: one list of tasks, seeded at construction and changed only by
 * `Create`, `Update` and `Delete`. The artificial latency of every call is left out, so each
 * operation runs to completion synchronously.
 */
module TaskApi {
  import opened Options
  import opened Entities
  import Keyed

  /**
   * The record `create` stores: a generated `Id`, overridden by one the caller supplies, then the
   * caller's fields, then `completed = false` and `createdAt = now` whatever the caller passed.
   */
  function NewTask(tasks: seq<Task>, data: TaskData, now: string): (t: Task)
    ensures data.Id.None? ==> forall j :: 0 <= j < |tasks| ==> tasks[j].Id < t.Id
    ensures data.Id.None? && tasks == [] ==> t.Id == 1
    ensures data.Id.Some? ==> t.Id == data.Id.value
    ensures !t.completed && t.createdAt == now
    ensures t.title == data.title && t.description == data.description && t.dueDate == data.dueDate
    ensures t.priority == data.priority && t.category == data.category
  {
    var generated := Keyed.NextKey(tasks, TaskKey);
    assert forall j :: 0 <= j < |tasks| ==> TaskKey(tasks[j]) < generated;
    Task(data.Id.GetOr(generated), data.title, data.description, data.dueDate,
         data.priority, data.category, false, now)
  }

  class TaskService {
    var tasks: seq<Task>

    /** The store starts as a copy of the seed list. */
    constructor (seed: seq<Task>)
      ensures tasks == seed
    {
      tasks := seed;
    }

    /** Every stored task, in insertion order; nothing changes. */
    method GetAll() returns (all: seq<Task>)
      ensures all == tasks
    {
      all := tasks;
    }

    /** The first task whose `Id` equals `id`, or `None`; nothing changes. */
    method GetById(id: int) returns (found: Option<Task>)
      ensures found.None? <==> forall j :: 0 <= j < |tasks| ==> tasks[j].Id != id
      ensures found.Some? ==> found.value.Id == id
      ensures found.Some? ==>
                (exists i :: 0 <= i < |tasks| && tasks[i] == found.value &&
                             (forall j :: 0 <= j < i ==> tasks[j].Id != id))
    {
      match Keyed.IndexOf(tasks, TaskKey, id)
      case None =>
        found := None;
      case Some(i) =>
        found := Some(tasks[i]);
        assert forall j :: 0 <= j < i ==> TaskKey(tasks[j]) != id;
    }

    /** Appends `NewTask(...)` and returns it. With no supplied `Id`, unique ids stay unique. */
    method Create(data: TaskData, now: string) returns (created: Task)
      modifies this
      ensures created == NewTask(old(tasks), data, now)
      ensures tasks == old(tasks) + [created]
      ensures Keyed.Unique(old(tasks), TaskKey) && data.Id.None? ==> Keyed.Unique(tasks, TaskKey)
    {
      created := NewTask(tasks, data, now);
      if Keyed.Unique(tasks, TaskKey) && data.Id.None? {
        Keyed.UniqueAppend(tasks, TaskKey, created);
      }
      tasks := tasks + [created];
    }

    /**
     * Merges `updates` into the first task with that `Id` and returns the merged task; on no match
     * returns `None` and changes nothing. Every other index keeps its task.
     */
    method Update(id: int, updates: TaskPatch) returns (updated: Option<Task>)
      modifies this
      ensures |tasks| == |old(tasks)|
      ensures Keyed.IndexOf(old(tasks), TaskKey, id).None? ==> updated.None? && tasks == old(tasks)
      ensures Keyed.IndexOf(old(tasks), TaskKey, id).Some? ==>
                var i := Keyed.IndexOf(old(tasks), TaskKey, id).value;
                && tasks == old(tasks)[i := MergeTask(old(tasks)[i], updates)]
                && updated == Some(tasks[i])
      ensures Keyed.Unique(old(tasks), TaskKey) && updates.Id.None? ==> Keyed.Unique(tasks, TaskKey)
    {
      match Keyed.IndexOf(tasks, TaskKey, id)
      case None =>
        updated := None;
      case Some(i) =>
        var merged := MergeTask(tasks[i], updates);
        if Keyed.Unique(tasks, TaskKey) && updates.Id.None? {
          Keyed.UniqueUpdateAt(tasks, TaskKey, i, merged);
        }
        tasks := tasks[i := merged];
        updated := Some(merged);
    }

    /**
     * Splices out the first task with that `Id` and reports `true`; on no match reports `false`
     * and changes nothing.
     */
    method Delete(id: int) returns (removed: bool)
      modifies this
      ensures removed <==> exists j :: 0 <= j < |old(tasks)| && old(tasks)[j].Id == id
      ensures !removed ==> tasks == old(tasks)
      ensures removed ==> |tasks| == |old(tasks)| - 1 &&
                          tasks == Keyed.RemoveAt(old(tasks), Keyed.IndexOf(old(tasks), TaskKey, id).value)
      ensures Keyed.Unique(old(tasks), TaskKey) ==> Keyed.Unique(tasks, TaskKey)
    {
      match Keyed.IndexOf(tasks, TaskKey, id)
      case None =>
        removed := false;
      case Some(i) =>
        if Keyed.Unique(tasks, TaskKey) {
          Keyed.UniqueRemoveAt(tasks, TaskKey, i);
        }
        tasks := Keyed.RemoveAt(tasks, i);
        removed := true;
    }
  }

  /**
   * A client of the store: creating a task, deleting it and creating another hands the second
   * task the first one's `Id`, since the next `Id` is recomputed from the tasks present.
   */
  method CreateDeleteCreate(store: TaskService, first: TaskData, second: TaskData, now: string)
    returns (a: Task, b: Task)
    requires first.Id.None? && second.Id.None?
    modifies store
    ensures a.Id == b.Id
    ensures store.tasks == old(store.tasks) + [b]
  {
    a := store.Create(first, now);
    Keyed.CreateDeleteRestores(old(store.tasks), TaskKey, a);
    var removed := store.Delete(a.Id);
    b := store.Create(second, now);
  }
}
