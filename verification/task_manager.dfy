/**
 * The self-contained task manager component: a task list held in component
 * state (persisted by a storage hook that is not part of this model), a
 * status filter, an add form, toggling, deleting, seeding an empty list,
 * and the header counts.
 *
 * The seeding effect depends on the list's length, so it runs on mount and
 * again after every change of length: the state is modelled as it stands
 * once that effect has run, and a list left empty is at once re-seeded.
 */
module TaskManager {
  import opened Builtins
  import opened TaskContext

  datatype FilterType = All | Active | Completed

  /** The filter callback's `switch`: `'active'`, `'completed'`, default keeps. */
  predicate Keeps(f: FilterType, t: Task)
  {
    match f
    case Active => !t.completed
    case Completed => t.completed
    case All => true
  }

  function FilterByStatus(tasks: seq<Task>, f: FilterType): seq<Task>
  {
    Filter(tasks, (t: Task) => Keeps(f, t))
  }

  /**
   * The filtered list is the task list read at increasing positions;
   * `'active'` keeps exactly the uncompleted tasks, `'completed'` exactly the
   * completed ones.
   */
  lemma FilterByStatusSpec(tasks: seq<Task>, f: FilterType) returns (idx: seq<nat>)
    ensures ReadAt(FilterByStatus(tasks, f), tasks, idx)
    ensures f == Active ==> forall j :: 0 <= j < |tasks| ==> (j in idx <==> !tasks[j].completed)
    ensures f == Completed ==> forall j :: 0 <= j < |tasks| ==> (j in idx <==> tasks[j].completed)
  {
    idx := FilterIndices(tasks, (t: Task) => Keeps(f, t));
  }

  /** `'all'` is the identity. */
  lemma FilterAllIsIdentity(tasks: seq<Task>)
    ensures FilterByStatus(tasks, All) == tasks
  {
    FilterAll(tasks, (t: Task) => Keeps(All, t));
  }

  /** The active and the completed views split the list between them. */
  lemma ActiveCompletedPartition(tasks: seq<Task>)
    ensures |FilterByStatus(tasks, Active)| + |FilterByStatus(tasks, Completed)| == |tasks|
  {
    CountSplit(tasks, (t: Task) => Keeps(Active, t), (t: Task) => Keeps(Completed, t));
  }

  /** `tasks.map(task => task.id === id ? {...task, completed: !task.completed} : task)` */
  function Toggled(tasks: seq<Task>, id: string): seq<Task>
  {
    Map(tasks, (x: Task) => if x.id == id then x.(completed := !x.completed) else x)
  }

  /**
   * Toggling negates `completed` on the tasks carrying `id` and changes no
   * other field of them and nothing about the other tasks.
   */
  lemma ToggledSpec(tasks: seq<Task>, id: string)
    ensures |Toggled(tasks, id)| == |tasks|
    ensures forall i :: 0 <= i < |tasks| && tasks[i].id == id ==>
      Toggled(tasks, id)[i] == tasks[i].(completed := !tasks[i].completed)
    ensures forall i :: 0 <= i < |tasks| && tasks[i].id != id ==> Toggled(tasks, id)[i] == tasks[i]
  {
  }

  /** Toggling the same id twice restores the list. */
  lemma ToggleTwice(tasks: seq<Task>, id: string)
    ensures Toggled(Toggled(tasks, id), id) == tasks
  {
    var once := Toggled(tasks, id);
    var twice := Toggled(once, id);
    forall i | 0 <= i < |tasks| ensures twice[i] == tasks[i] {
      assert once[i].id == tasks[i].id;
    }
  }

  /** The header counts. */
  datatype Stats = Stats(total: nat, active: nat, completed: nat)

  function TaskStats(tasks: seq<Task>): (r: Stats)
    ensures r.total == |tasks|
    ensures r.active + r.completed == r.total
  {
    CountSplit(tasks, (t: Task) => !t.completed, (t: Task) => t.completed);
    Stats(|tasks|, Count(tasks, (t: Task) => !t.completed), Count(tasks, (t: Task) => t.completed))
  }

  /** The add form's fields. */
  datatype NewTaskForm = NewTaskForm(title: string, description: string, priority: Priority, category: Category)

  const EmptyForm := NewTaskForm("", "", Medium, Work)

  /**
   * The two tasks an empty list is seeded with; the clock is read once per
   * task, giving the two timestamps.
   */
  function InitialTasks(now1: string, now2: string): seq<Task>
  {
    [ Task("1", "Complete project documentation",
           "Write comprehensive documentation for the TaskFlow project",
           High, Work, false, None, now1),
      Task("2", "Review code with team", "Schedule and conduct code review session",
           Medium, Work, true, None, now2) ]
  }

  /**
   * The list once the seeding effect has run: an empty list is replaced by
   * the seed tasks, any other list is left alone, so it is never empty.
   */
  function Seeded(tasks: seq<Task>, now1: string, now2: string): (r: seq<Task>)
    ensures r != []
    ensures tasks != [] ==> r == tasks
    ensures tasks == [] ==> |r| == 2 && r[0].id == "1" && r[1].id == "2"
  {
    if tasks == [] then InitialTasks(now1, now2) else tasks
  }

  /** Deleting the only task leaves the seed tasks, not an empty list. */
  lemma DeleteLastReseeds(t: Task, now1: string, now2: string)
    ensures Seeded(RemoveById([t], t.id), now1, now2) == InitialTasks(now1, now2)
  {
    FilterNone([t], (x: Task) => x.id != t.id);
  }

  /**
   * The component's state. Clock readings (`Date.now()` ids and ISO
   * timestamps) are parameters of the methods that use them.
   */
  class TaskManager {
    var tasks: seq<Task>
    var filter: FilterType
    var isAdding: bool
    var newTask: NewTaskForm

    /** Once the seeding effect has run, the list is never empty. */
    ghost predicate Valid()
      reads this
    {
      tasks != []
    }

    /**
     * `stored` is what the storage hook hands back (its default is `[]`);
     * the mount effect seeds it when it is empty.
     */
    constructor(stored: seq<Task>, now1: string, now2: string)
      ensures Valid()
      ensures tasks == Seeded(stored, now1, now2)
      ensures filter == All && !isAdding && newTask == EmptyForm
    {
      tasks := Seeded(stored, now1, now2);
      filter := All;
      isAdding := false;
      newTask := EmptyForm;
    }

    function FilteredTasks(): seq<Task>
      reads this
    {
      FilterByStatus(tasks, filter)
    }

    /** The effect that seeds an empty list; a non-empty list is left alone. */
    method SeedIfEmpty(now1: string, now2: string)
      modifies this
      ensures Valid()
      ensures tasks == Seeded(old(tasks), now1, now2)
      ensures filter == old(filter) && isAdding == old(isAdding) && newTask == old(newTask)
    {
      if |tasks| == 0 {
        tasks := InitialTasks(now1, now2);
      }
    }

    /**
     * A title that is all white space changes nothing. Otherwise one task
     * built from the form (not completed, no due date) is appended and the
     * form is reset and closed.
     */
    method AddTask(id: string, now: string)
      requires Valid()
      modifies this
      ensures Valid()
      ensures filter == old(filter)
      ensures (forall k :: 0 <= k < |old(newTask.title)| ==> IsSpace(old(newTask.title)[k])) ==>
        tasks == old(tasks) && newTask == old(newTask) && isAdding == old(isAdding)
      ensures !(forall k :: 0 <= k < |old(newTask.title)| ==> IsSpace(old(newTask.title)[k])) ==>
        && tasks == old(tasks) + [Task(id, old(newTask.title), old(newTask.description),
                                       old(newTask.priority), old(newTask.category), false, None, now)]
        && newTask == EmptyForm && !isAdding
    {
      TrimEmptyIff(newTask.title);
      if Trim(newTask.title) == [] {
        return;
      }
      var task := Task(id, newTask.title, newTask.description, newTask.priority, newTask.category,
                       false, None, now);
      tasks := tasks + [task];
      newTask := EmptyForm;
      isAdding := false;
    }

    /** The length does not change, so the seeding effect does not run again. */
    method ToggleTask(id: string)
      requires Valid()
      modifies this
      ensures Valid()
      ensures tasks == Toggled(old(tasks), id)
      ensures filter == old(filter) && isAdding == old(isAdding) && newTask == old(newTask)
    {
      tasks := Toggled(tasks, id);
    }

    /**
     * Removes exactly the tasks carrying `id` (see `TaskContext.RemoveByIdSpec`);
     * the seeding effect then refills a list left empty.
     */
    method DeleteTask(id: string, now1: string, now2: string)
      requires Valid()
      modifies this
      ensures Valid()
      ensures tasks == Seeded(RemoveById(old(tasks), id), now1, now2)
      ensures filter == old(filter) && isAdding == old(isAdding) && newTask == old(newTask)
    {
      tasks := RemoveById(tasks, id);
      SeedIfEmpty(now1, now2);
    }
  }
}
