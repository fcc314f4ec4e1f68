/**
 * The in-memory category store: the task store's twin over categories, except that `create`
 * forces `taskCount` to 0. The artificial latency of every call is left out.
 */
module CategoryApi {
  import opened Options
  import opened Entities
  import Keyed

  /**
   * The record `create` stores: a generated `Id`, overridden by one the caller supplies, the
   * caller's name and colour, and `taskCount = 0` whatever the caller passed.
   */
  function NewCategory(categories: seq<Category>, data: CategoryData): (c: Category)
    ensures data.Id.None? ==> forall j :: 0 <= j < |categories| ==> categories[j].Id < c.Id
    ensures data.Id.None? && categories == [] ==> c.Id == 1
    ensures data.Id.Some? ==> c.Id == data.Id.value
    ensures c.name == data.name && c.color == data.color
    ensures c.taskCount == 0
  {
    var generated := Keyed.NextKey(categories, CategoryKey);
    assert forall j :: 0 <= j < |categories| ==> CategoryKey(categories[j]) < generated;
    Category(data.Id.GetOr(generated), data.name, data.color, 0)
  }

  class CategoryService {
    var categories: seq<Category>

    /** The store starts as a copy of the seed list. */
    constructor (seed: seq<Category>)
      ensures categories == seed
    {
      categories := seed;
    }

    /** Every stored category, in insertion order; nothing changes. */
    method GetAll() returns (all: seq<Category>)
      ensures all == categories
    {
      all := categories;
    }

    /** The first category whose `Id` equals `id`, or `None`; nothing changes. */
    method GetById(id: int) returns (found: Option<Category>)
      ensures found.None? <==> forall j :: 0 <= j < |categories| ==> categories[j].Id != id
      ensures found.Some? ==> found.value.Id == id
      ensures found.Some? ==>
                (exists i :: 0 <= i < |categories| && categories[i] == found.value &&
                             (forall j :: 0 <= j < i ==> categories[j].Id != id))
    {
      match Keyed.IndexOf(categories, CategoryKey, id)
      case None =>
        found := None;
      case Some(i) =>
        found := Some(categories[i]);
        assert forall j :: 0 <= j < i ==> CategoryKey(categories[j]) != id;
    }

    /** Appends `NewCategory(...)` and returns it. With no supplied `Id`, unique ids stay unique. */
    method Create(data: CategoryData) returns (created: Category)
      modifies this
      ensures created == NewCategory(old(categories), data)
      ensures categories == old(categories) + [created]
      ensures Keyed.Unique(old(categories), CategoryKey) && data.Id.None? ==> Keyed.Unique(categories, CategoryKey)
    {
      created := NewCategory(categories, data);
      if Keyed.Unique(categories, CategoryKey) && data.Id.None? {
        Keyed.UniqueAppend(categories, CategoryKey, created);
      }
      categories := categories + [created];
    }

    /**
     * Merges `updates` into the first category with that `Id` and returns the merged category;
     * on no match returns `None` and changes nothing. Every other index keeps its category.
     */
    method Update(id: int, updates: CategoryPatch) returns (updated: Option<Category>)
      modifies this
      ensures |categories| == |old(categories)|
      ensures Keyed.IndexOf(old(categories), CategoryKey, id).None? ==> updated.None? && categories == old(categories)
      ensures Keyed.IndexOf(old(categories), CategoryKey, id).Some? ==>
                var i := Keyed.IndexOf(old(categories), CategoryKey, id).value;
                && categories == old(categories)[i := MergeCategory(old(categories)[i], updates)]
                && updated == Some(categories[i])
      ensures Keyed.Unique(old(categories), CategoryKey) && updates.Id.None? ==> Keyed.Unique(categories, CategoryKey)
    {
      match Keyed.IndexOf(categories, CategoryKey, id)
      case None =>
        updated := None;
      case Some(i) =>
        var merged := MergeCategory(categories[i], updates);
        if Keyed.Unique(categories, CategoryKey) && updates.Id.None? {
          Keyed.UniqueUpdateAt(categories, CategoryKey, i, merged);
        }
        categories := categories[i := merged];
        updated := Some(merged);
    }

    /**
     * Splices out the first category with that `Id` and reports `true`; on no match reports
     * `false` and changes nothing. Tasks naming the category are not touched.
     */
    method Delete(id: int) returns (removed: bool)
      modifies this
      ensures removed <==> exists j :: 0 <= j < |old(categories)| && old(categories)[j].Id == id
      ensures !removed ==> categories == old(categories)
      ensures removed ==> |categories| == |old(categories)| - 1 &&
                          categories == Keyed.RemoveAt(old(categories), Keyed.IndexOf(old(categories), CategoryKey, id).value)
      ensures Keyed.Unique(old(categories), CategoryKey) ==> Keyed.Unique(categories, CategoryKey)
    {
      match Keyed.IndexOf(categories, CategoryKey, id)
      case None =>
        removed := false;
      case Some(i) =>
        if Keyed.Unique(categories, CategoryKey) {
          Keyed.UniqueRemoveAt(categories, CategoryKey, i);
        }
        categories := Keyed.RemoveAt(categories, i);
        removed := true;
    }
  }
}
