/**
 * The task list page: the four-way filter over the store's tasks, the
 * header counts, and the title check and payload construction of the
 * create/edit form.
 */
module TasksPage {
  import opened Builtins
  import opened TaskContext

  /** The page's filter state: a search term and three string selectors. */
  datatype Criteria = Criteria(searchTerm: string, category: string, priority: string, status: string)

  /** Case-insensitive containment in the title or the description. */
  predicate MatchesSearch(t: Task, term: string)
  {
    Includes(ToLower(t.title), ToLower(term)) || Includes(ToLower(t.description), ToLower(term))
  }

  predicate MatchesCategory(t: Task, filter: string)
  {
    filter == "all" || CategoryName(t.category) == filter
  }

  predicate MatchesPriority(t: Task, filter: string)
  {
    filter == "all" || PriorityName(t.priority) == filter
  }

  predicate MatchesStatus(t: Task, filter: string)
  {
    filter == "all" || (filter == "completed" && t.completed) || (filter == "pending" && !t.completed)
  }

  predicate Matches(t: Task, c: Criteria)
  {
    MatchesSearch(t, c.searchTerm) && MatchesCategory(t, c.category)
    && MatchesPriority(t, c.priority) && MatchesStatus(t, c.status)
  }

  function FilteredTasks(tasks: seq<Task>, c: Criteria): seq<Task>
  {
    Filter(tasks, (t: Task) => Matches(t, c))
  }

  /**
   * The filtered list is the store's list read at increasing positions, and
   * a task's position is kept exactly when the search, category, priority
   * and status tests all pass for it.
   */
  lemma FilteredTasksSpec(tasks: seq<Task>, c: Criteria) returns (idx: seq<nat>)
    ensures ReadAt(FilteredTasks(tasks, c), tasks, idx)
    ensures forall j :: 0 <= j < |tasks| ==>
      (j in idx <==> MatchesSearch(tasks[j], c.searchTerm) && MatchesCategory(tasks[j], c.category)
                     && MatchesPriority(tasks[j], c.priority) && MatchesStatus(tasks[j], c.status))
  {
    idx := FilterIndices(tasks, (t: Task) => Matches(t, c));
  }

  /**
   * The search matches exactly when the lower-cased term occurs somewhere in
   * the lower-cased title or description; an empty term matches every task.
   */
  lemma SearchSpec(t: Task, term: string)
    ensures MatchesSearch(t, term) <==>
      (exists i: nat :: OccursAt(ToLower(t.title), ToLower(term), i))
      || (exists i: nat :: OccursAt(ToLower(t.description), ToLower(term), i))
    ensures term == [] ==> MatchesSearch(t, term)
  {
    IncludesIff(ToLower(t.title), ToLower(term));
    IncludesIff(ToLower(t.description), ToLower(term));
    if term == [] {
      assert ToLower(term) == [];
      IncludesEmpty(ToLower(t.title));
    }
  }

  /** Searching for a term or for its lower-cased form is the same. */
  lemma SearchIgnoresCase(t: Task, term: string)
    ensures MatchesSearch(t, term) == MatchesSearch(t, ToLower(term))
  {
    ToLowerIdempotent(term);
  }

  /**
   * With an empty search and the sentinel `'all'` elsewhere, the status
   * selector alone decides: `'completed'` keeps exactly the completed tasks,
   * `'pending'` exactly the others, `'all'` everything, and any other value
   * nothing.
   */
  lemma StatusOnlySpec(tasks: seq<Task>, status: string)
    ensures var r := FilteredTasks(tasks, Criteria("", "all", "all", status));
      if status == "all" then r == tasks
      else if status == "completed" then r == Filter(tasks, (t: Task) => t.completed)
      else if status == "pending" then r == Filter(tasks, (t: Task) => !t.completed)
      else r == []
  {
    var c := Criteria("", "all", "all", status);
    forall i | 0 <= i < |tasks| ensures Matches(tasks[i], c) == MatchesStatus(tasks[i], status) {
      SearchSpec(tasks[i], "");
    }
    FilterCongruent(tasks, (t: Task) => Matches(t, c), (t: Task) => MatchesStatus(t, status));
    if status == "all" {
      FilterAll(tasks, (t: Task) => MatchesStatus(t, status));
    } else if status == "completed" {
      FilterCongruent(tasks, (t: Task) => MatchesStatus(t, status), (t: Task) => t.completed);
    } else if status == "pending" {
      FilterCongruent(tasks, (t: Task) => MatchesStatus(t, status), (t: Task) => !t.completed);
    } else {
      FilterNone(tasks, (t: Task) => MatchesStatus(t, status));
    }
  }

  /** With every selector `'all'` and an empty search, nothing is filtered out. */
  lemma SentinelsKeepAll(tasks: seq<Task>)
    ensures FilteredTasks(tasks, Criteria("", "all", "all", "all")) == tasks
  {
    StatusOnlySpec(tasks, "all");
  }

  /** The header counts. */
  datatype Stats = Stats(total: nat, completed: nat, pending: nat, high: nat)

  function TaskStats(tasks: seq<Task>): (r: Stats)
    ensures r.total == |tasks|
    ensures r.completed + r.pending == r.total
    ensures r.high <= r.total
  {
    CountSplit(tasks, (t: Task) => t.completed, (t: Task) => !t.completed);
    Stats(|tasks|, Count(tasks, (t: Task) => t.completed), Count(tasks, (t: Task) => !t.completed),
          Count(tasks, (t: Task) => t.priority == High))
  }

  // ---------------------------------------------------------------------------
  // The create/edit form

  datatype FormData = FormData(
    title: string,
    description: string,
    priority: Priority,
    category: Category,
    dueDate: string)

  const EmptyForm := FormData("", "", Medium, Work, "")

  /** `dueDate || undefined`: the empty string means no due date. */
  function OptionalDate(s: string): Option<string>
  {
    if s == "" then None else Some(s)
  }

  /** What a submit hands to the store, if anything. */
  datatype Submission = Rejected | Update(task: Task) | Create(draft: Draft)

  /**
   * A title that is empty after trimming is rejected before any store call.
   * Editing keeps the edited task's `id`, `createdAt` and `completed` and
   * takes every other field from the form; creating sets `completed` to
   * false. In both, an empty due date becomes absent.
   */
  function HandleSubmit(form: FormData, editing: Option<Task>): (r: Submission)
    ensures r.Rejected? <==> forall k :: 0 <= k < |form.title| ==> IsSpace(form.title[k])
    ensures r.Update? <==> !r.Rejected? && editing.Some?
    ensures r.Update? ==>
      && r.task.id == editing.value.id && r.task.createdAt == editing.value.createdAt
      && r.task.completed == editing.value.completed
      && r.task.title == form.title && r.task.description == form.description
      && r.task.priority == form.priority && r.task.category == form.category
      && (r.task.dueDate.None? <==> form.dueDate == "")
      && (r.task.dueDate.Some? ==> r.task.dueDate.value == form.dueDate)
    ensures r.Create? ==>
      && r.draft.title == form.title && r.draft.description == form.description
      && r.draft.priority == form.priority && r.draft.category == form.category
      && !r.draft.completed
      && (r.draft.dueDate.None? <==> form.dueDate == "")
      && (r.draft.dueDate.Some? ==> r.draft.dueDate.value == form.dueDate)
  {
    TrimEmptyIff(form.title);
    if Trim(form.title) == [] then Rejected
    else match editing
      case Some(t) =>
        Update(t.(title := form.title, description := form.description, priority := form.priority,
                  category := form.category, dueDate := OptionalDate(form.dueDate)))
      case None =>
        Create(Draft(form.title, form.description, form.priority, form.category, false,
                     OptionalDate(form.dueDate)))
  }
}
