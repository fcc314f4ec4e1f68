/**
 * The filter engine of the tasks page: the visible list is derived from the full task list,
 * the search text and three filter dimensions (status, category, priority), each "all" when off.
 * Each stage keeps the tasks that meet one condition, so a condition is a `Criterion` and a
 * stage is `Keep`.
 */
module TaskFilters {
  import opened Options
  import opened Entities
  import Text
  import Keyed

  /** The page's filter record; every dimension is a free string, "all" switching it off. */
  datatype Filters = Filters(status: string, category: string, priority: string)

  /** The filters the page starts with. */
  const AllFilters := Filters("all", "all", "all")

  /** A partial filter record, as the sidebar's buttons emit. */
  datatype FilterPatch = FilterPatch(status: Option<string>, category: Option<string>, priority: Option<string>)

  /** `{ ...prev, ...patch }`. */
  function MergeFilters(f: Filters, p: FilterPatch): (r: Filters) {
    Filters(p.status.GetOr(f.status), p.category.GetOr(f.category), p.priority.GetOr(f.priority))
  }

  /** Merging overrides exactly the keys the patch carries and leaves the others as they were. */
  lemma MergeFiltersOverridesOnlyPresentKeys(f: Filters, p: FilterPatch)
    ensures MergeFilters(f, p).status == (if p.status.Some? then p.status.value else f.status)
    ensures MergeFilters(f, p).category == (if p.category.Some? then p.category.value else f.category)
    ensures MergeFilters(f, p).priority == (if p.priority.Some? then p.priority.value else f.priority)
  {
  }

  /** One condition a task may have to meet. */
  datatype Criterion =
    | Anything
    | Mentions(query: string)
    | HasStatus(status: string)
    | InCategory(name: string)
    | HasPriority(priority: string)
    | Both(left: Criterion, right: Criterion)

  /** The search condition: title or description contains the query, ignoring case. */
  predicate MatchesQuery(t: Task, query: string) {
    || Text.Contains(Text.Lower(t.title), Text.Lower(query))
    || Text.Contains(Text.Lower(t.description), Text.Lower(query))
  }

  /** The status condition: "completed" asks for completed tasks, any other value for open ones. */
  predicate MatchesStatus(t: Task, status: string) {
    if status == "completed" then t.completed else !t.completed
  }

  predicate Holds(t: Task, c: Criterion) {
    match c
    case Anything => true
    case Mentions(q) => MatchesQuery(t, q)
    case HasStatus(s) => MatchesStatus(t, s)
    case InCategory(name) => t.category == name
    case HasPriority(p) => t.priority == p
    case Both(a, b) => Holds(t, a) && Holds(t, b)
  }

  /** `filter(t => Holds(t, c))`: the tasks meeting `c`, in their original order. */
  function Keep(s: seq<Task>, c: Criterion): (r: seq<Task>)
    ensures |r| <= |s|
    ensures forall j :: 0 <= j < |r| ==> Holds(r[j], c)
  {
    if s == [] then []
    else if Holds(s[0], c) then [s[0]] + Keep(s[1..], c)
    else Keep(s[1..], c)
  }

  /** `applyFilters`: search, then status, then category, then priority, each skipped when off. */
  function ApplyFilters(tasks: seq<Task>, query: string, filters: Filters): (r: seq<Task>)
    ensures |r| <= |tasks|
  {
    var searched := if query != "" then Keep(tasks, Mentions(query)) else tasks;
    var byStatus := if filters.status != "all" then Keep(searched, HasStatus(filters.status)) else searched;
    var byCategory := if filters.category != "all" then Keep(byStatus, InCategory(filters.category)) else byStatus;
    if filters.priority != "all" then Keep(byCategory, HasPriority(filters.priority)) else byCategory
  }

  /** The four stages as one condition. */
  function Survives(query: string, filters: Filters): Criterion {
    Both(Both(Both(
      if query != "" then Mentions(query) else Anything,
      if filters.status != "all" then HasStatus(filters.status) else Anything),
      if filters.category != "all" then InCategory(filters.category) else Anything),
      if filters.priority != "all" then HasPriority(filters.priority) else Anything)
  }

  /** A task is kept exactly when it is in the list and meets the condition. */
  lemma {:induction false} KeepMembers(s: seq<Task>, c: Criterion, t: Task)
    ensures t in Keep(s, c) <==> t in s && Holds(t, c)
  {
    if s != [] {
      KeepMembers(s[1..], c, t);
      assert s == [s[0]] + s[1..];
    }
  }

  /** What is kept is a subsequence of the input: order is preserved. */
  lemma {:induction false} KeepIsSubsequence(s: seq<Task>, c: Criterion)
    ensures Keyed.IsSubsequence(Keep(s, c), s)
  {
    if s != [] {
      KeepIsSubsequence(s[1..], c);
      if Holds(s[0], c) {
        assert ([s[0]] + Keep(s[1..], c))[1..] == Keep(s[1..], c);
      }
    }
  }

  /** When every task meets the condition, nothing is dropped. */
  lemma {:induction false} KeepEverything(s: seq<Task>, c: Criterion)
    requires forall j :: 0 <= j < |s| ==> Holds(s[j], c)
    ensures Keep(s, c) == s
  {
    if s != [] {
      KeepEverything(s[1..], c);
      assert s == [s[0]] + s[1..];
    }
  }

  /** Two stages in a row keep what one stage with both conditions keeps. */
  lemma {:induction false} KeepKeep(s: seq<Task>, a: Criterion, b: Criterion)
    ensures Keep(Keep(s, a), b) == Keep(s, Both(a, b))
  {
    if s != [] {
      KeepKeep(s[1..], a, b);
      if Holds(s[0], a) {
        assert Keep(s, a) == [s[0]] + Keep(s[1..], a);
        assert ([s[0]] + Keep(s[1..], a))[1..] == Keep(s[1..], a);
      }
    }
  }

  /** The order of two stages does not change the result. */
  lemma KeepCommutes(s: seq<Task>, a: Criterion, b: Criterion)
    ensures Keep(Keep(s, a), b) == Keep(Keep(s, b), a)
  {
    KeepKeep(s, a, b);
    KeepKeep(s, b, a);
    KeepSameCondition(s, Both(a, b), Both(b, a));
  }

  /** Conditions that agree on every task keep the same tasks. */
  lemma {:induction false} KeepSameCondition(s: seq<Task>, a: Criterion, b: Criterion)
    requires forall t :: Holds(t, a) == Holds(t, b)
    ensures Keep(s, a) == Keep(s, b)
  {
    if s != [] {
      KeepSameCondition(s[1..], a, b);
    }
  }

  /** A stage applied twice keeps what it kept the first time. */
  lemma KeepIdempotent(s: seq<Task>, c: Criterion)
    ensures Keep(Keep(s, c), c) == Keep(s, c)
  {
    KeepEverything(Keep(s, c), c);
  }

  /** Keeping the completed tasks and keeping the open ones splits the list. */
  lemma {:induction false} KeepStatusSplits(s: seq<Task>, other: string)
    requires other != "completed"
    ensures |Keep(s, HasStatus("completed"))| + |Keep(s, HasStatus(other))| == |s|
  {
    if s != [] {
      KeepStatusSplits(s[1..], other);
    }
  }

  /** `Keep` over an appended task: the task is kept after the rest exactly when it meets the condition. */
  lemma {:induction false} KeepAppend(s: seq<Task>, t: Task, c: Criterion)
    ensures Keep(s + [t], c) == Keep(s, c) + (if Holds(t, c) then [t] else [])
  {
    if s == [] {
      assert [t][1..] == [];
    } else {
      assert (s + [t])[1..] == s[1..] + [t];
      KeepAppend(s[1..], t, c);
    }
  }

  /** The staged filter equals one pass with the combined condition. */
  lemma ApplyFiltersIsKeep(tasks: seq<Task>, query: string, filters: Filters)
    ensures ApplyFilters(tasks, query, filters) == Keep(tasks, Survives(query, filters))
  {
    var q := if query != "" then Mentions(query) else Anything;
    var st := if filters.status != "all" then HasStatus(filters.status) else Anything;
    var ca := if filters.category != "all" then InCategory(filters.category) else Anything;
    var pr := if filters.priority != "all" then HasPriority(filters.priority) else Anything;
    var s1 := Keep(tasks, q);
    KeepEverything(tasks, Anything);
    KeepEverything(s1, Anything);
    KeepKeep(tasks, q, st);
    var s2 := Keep(tasks, Both(q, st));
    KeepEverything(s2, Anything);
    KeepKeep(tasks, Both(q, st), ca);
    var s3 := Keep(tasks, Both(Both(q, st), ca));
    KeepEverything(s3, Anything);
    KeepKeep(tasks, Both(Both(q, st), ca), pr);
  }

  /**
   * A task is visible exactly when it is in the list and passes every active stage: the search
   * (empty query, or title or description contains it ignoring case), the status, the exact
   * category and the exact priority.
   */
  lemma ApplyFiltersMembers(tasks: seq<Task>, query: string, filters: Filters, t: Task)
    ensures t in ApplyFilters(tasks, query, filters) <==>
              && t in tasks
              && (query == "" || MatchesQuery(t, query))
              && (filters.status == "all" || (if filters.status == "completed" then t.completed else !t.completed))
              && (filters.category == "all" || t.category == filters.category)
              && (filters.priority == "all" || t.priority == filters.priority)
  {
    ApplyFiltersIsKeep(tasks, query, filters);
    KeepMembers(tasks, Survives(query, filters), t);
    var q := if query != "" then Mentions(query) else Anything;
    var st := if filters.status != "all" then HasStatus(filters.status) else Anything;
    var ca := if filters.category != "all" then InCategory(filters.category) else Anything;
    var pr := if filters.priority != "all" then HasPriority(filters.priority) else Anything;
    assert Survives(query, filters) == Both(Both(Both(q, st), ca), pr);
    assert Holds(t, Both(Both(q, st), ca)) == (Holds(t, Both(q, st)) && Holds(t, ca));
    assert Holds(t, q) == (query == "" || MatchesQuery(t, query));
    assert Holds(t, st) == (filters.status == "all" || MatchesStatus(t, filters.status));
    assert Holds(t, ca) == (filters.category == "all" || t.category == filters.category);
    assert Holds(t, pr) == (filters.priority == "all" || t.priority == filters.priority);
  }

  /** The visible list keeps the relative order of the tasks it shows. */
  lemma ApplyFiltersIsSubsequence(tasks: seq<Task>, query: string, filters: Filters)
    ensures Keyed.IsSubsequence(ApplyFilters(tasks, query, filters), tasks)
  {
    ApplyFiltersIsKeep(tasks, query, filters);
    KeepIsSubsequence(tasks, Survives(query, filters));
  }

  /** With no search and every dimension "all", every task is visible, in order. */
  lemma ApplyFiltersOff(tasks: seq<Task>)
    ensures ApplyFilters(tasks, "", AllFilters) == tasks
  {
  }

  /** Filtering the visible list again with the same inputs changes nothing. */
  lemma ApplyFiltersIdempotent(tasks: seq<Task>, query: string, filters: Filters)
    ensures ApplyFilters(ApplyFilters(tasks, query, filters), query, filters) == ApplyFilters(tasks, query, filters)
  {
    var c := Survives(query, filters);
    ApplyFiltersIsKeep(tasks, query, filters);
    ApplyFiltersIsKeep(Keep(tasks, c), query, filters);
    KeepIdempotent(tasks, c);
  }

  /** An open personal task and a completed work task. */
  const BuyMilk := Task(1, "Buy milk", "", "2024-01-01", "low", "Personal", false, "t0")
  const ShipRelease := Task(2, "Ship release", "", "2024-01-02", "high", "Work", true, "t0")

  /** Only open tasks are shown under "active". */
  lemma ActiveExample()
    ensures ApplyFilters([BuyMilk, ShipRelease], "", AllFilters.(status := "active")) == [BuyMilk]
  {
    var tasks := [BuyMilk, ShipRelease];
    assert tasks[1..] == [ShipRelease] && tasks[1..][1..] == [];
    assert Keep([ShipRelease], HasStatus("active")) == [];
    assert Keep(tasks, HasStatus("active")) == [BuyMilk];
  }
}
