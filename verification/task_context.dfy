/**
 * The task store: the `Task` record, the store state `{tasks, loading, error}`,
 * the closed set of reducer actions, the pure reducer, and the provider that
 * holds one reducer state and updates it by dispatching actions.
 */
module TaskContext {
  import opened Builtins

  datatype Priority = Low | Medium | High
  datatype Category = Work | Personal | Shopping | Health

  /** The string literal the source uses for each priority. */
  function PriorityName(p: Priority): string
  {
    match p
    case Low => "low"
    case Medium => "medium"
    case High => "high"
  }

  /** The string literal the source uses for each category. */
  function CategoryName(c: Category): string
  {
    match c
    case Work => "work"
    case Personal => "personal"
    case Shopping => "shopping"
    case Health => "health"
  }

  datatype Task = Task(
    id: string,
    title: string,
    description: string,
    priority: Priority,
    category: Category,
    completed: bool,
    dueDate: Option<string>,
    createdAt: string)

  /** A task before the store has given it an `id` and a `createdAt`. */
  datatype Draft = Draft(
    title: string,
    description: string,
    priority: Priority,
    category: Category,
    completed: bool,
    dueDate: Option<string>)
  {
    /** `{...draft, id, createdAt}` */
    function WithIdentity(id: string, createdAt: string): Task
    {
      Task(id, title, description, priority, category, completed, dueDate, createdAt)
    }
  }

  datatype TaskState = TaskState(tasks: seq<Task>, loading: bool, error: Option<string>)

  const InitialState := TaskState([], false, None)

  datatype TaskAction =
    | SetLoading(isLoading: bool)
    | SetTasks(newTasks: seq<Task>)
    | AddTask(added: Task)
    | UpdateTask(updated: Task)
    | DeleteTask(deletedId: string)
    | SetError(message: Option<string>)

  /** `tasks.map(task => task.id === t.id ? t : task)` */
  function ReplaceById(tasks: seq<Task>, t: Task): seq<Task>
  {
    Map(tasks, (x: Task) => if x.id == t.id then t else x)
  }

  /** `tasks.filter(task => task.id !== id)` */
  function RemoveById(tasks: seq<Task>, id: string): seq<Task>
  {
    Filter(tasks, (x: Task) => x.id != id)
  }

  /** The reducer: one pure transition per action. */
  function Reduce(state: TaskState, action: TaskAction): TaskState
  {
    match action
    case SetLoading(b) => state.(loading := b)
    case SetTasks(ts) => state.(tasks := ts, loading := false)
    case AddTask(t) => state.(tasks := state.tasks + [t])
    case UpdateTask(t) => state.(tasks := ReplaceById(state.tasks, t))
    case DeleteTask(id) => state.(tasks := RemoveById(state.tasks, id))
    case SetError(e) => state.(error := e, loading := false)
  }

  /** Replays a sequence of actions from `state`, oldest first. */
  function ReduceAll(state: TaskState, actions: seq<TaskAction>): TaskState
    decreases |actions|
  {
    if actions == [] then state
    else ReduceAll(Reduce(state, actions[0]), actions[1..])
  }

  predicate HasId(tasks: seq<Task>, id: string)
  {
    exists i :: 0 <= i < |tasks| && tasks[i].id == id
  }

  predicate DistinctIds(tasks: seq<Task>)
  {
    forall i, j :: 0 <= i < j < |tasks| ==> tasks[i].id != tasks[j].id
  }

  // ---------------------------------------------------------------------------
  // What each action does to the state

  /**
   * Only the fields an action names change: SET_LOADING touches `loading`
   * alone; SET_TASKS replaces `tasks` and clears `loading` but keeps a stale
   * `error`; ADD_TASK, UPDATE_TASK and DELETE_TASK touch `tasks` alone;
   * SET_ERROR sets `error`, clears `loading` and keeps `tasks`.
   */
  lemma ReduceFrames(state: TaskState, action: TaskAction)
    ensures action.SetLoading? ==>
      Reduce(state, action) == TaskState(state.tasks, action.isLoading, state.error)
    ensures action.SetTasks? ==>
      Reduce(state, action) == TaskState(action.newTasks, false, state.error)
    ensures action.AddTask? || action.UpdateTask? || action.DeleteTask? ==>
      Reduce(state, action).loading == state.loading && Reduce(state, action).error == state.error
    ensures action.SetError? ==>
      Reduce(state, action) == TaskState(state.tasks, false, action.message)
  {
  }

  /** ADD_TASK appends its payload at the end; the list grows by one. */
  lemma AddAppends(state: TaskState, t: Task)
    ensures Reduce(state, AddTask(t)).tasks[..|state.tasks|] == state.tasks
    ensures |Reduce(state, AddTask(t)).tasks| == |state.tasks| + 1
    ensures Reduce(state, AddTask(t)).tasks[|state.tasks|] == t
  {
  }

  /**
   * UPDATE_TASK keeps length, order and every id; each element carrying the
   * payload's id becomes the payload (its `createdAt` included), and every
   * other element is left as it was.
   */
  lemma ReplaceByIdSpec(tasks: seq<Task>, t: Task)
    ensures |ReplaceById(tasks, t)| == |tasks|
    ensures forall i :: 0 <= i < |tasks| ==> ReplaceById(tasks, t)[i].id == tasks[i].id
    ensures forall i :: 0 <= i < |tasks| && tasks[i].id == t.id ==> ReplaceById(tasks, t)[i] == t
    ensures forall i :: 0 <= i < |tasks| && tasks[i].id != t.id ==> ReplaceById(tasks, t)[i] == tasks[i]
  {
  }

  /** UPDATE_TASK for an id no task carries changes nothing (no "not found"). */
  lemma ReplaceAbsentIsNoop(tasks: seq<Task>, t: Task)
    requires !HasId(tasks, t.id)
    ensures ReplaceById(tasks, t) == tasks
  {
    var r := ReplaceById(tasks, t);
    forall i | 0 <= i < |tasks| ensures r[i] == tasks[i] {
      assert tasks[i].id != t.id;
    }
  }

  /** The payload is in the updated list exactly when its id was present. */
  lemma ReplacePresence(tasks: seq<Task>, t: Task)
    ensures t in ReplaceById(tasks, t) <==> HasId(tasks, t.id)
  {
    var r := ReplaceById(tasks, t);
    if HasId(tasks, t.id) {
      var i :| 0 <= i < |tasks| && tasks[i].id == t.id;
      assert r[i] == t;
    }
    if t in r {
      var i :| 0 <= i < |r| && r[i] == t;
      assert tasks[i].id == t.id;
    }
  }

  /** Applying the same UPDATE_TASK twice is applying it once. */
  lemma ReplaceIdempotent(tasks: seq<Task>, t: Task)
    ensures ReplaceById(ReplaceById(tasks, t), t) == ReplaceById(tasks, t)
  {
    var r := ReplaceById(tasks, t);
    var r2 := ReplaceById(r, t);
    forall i | 0 <= i < |tasks| ensures r2[i] == r[i] {
      if tasks[i].id == t.id {
        assert r[i] == t;
      } else {
        assert r[i] == tasks[i];
      }
    }
  }

  /**
   * DELETE_TASK keeps exactly the tasks whose id differs, in their original
   * order: the result is the list read at the increasing positions `idx`,
   * and a position is in `idx` exactly when its task has another id.
   */
  lemma RemoveByIdSpec(tasks: seq<Task>, id: string) returns (idx: seq<nat>)
    ensures ReadAt(RemoveById(tasks, id), tasks, idx)
    ensures forall j :: 0 <= j < |tasks| ==> (tasks[j].id != id <==> j in idx)
  {
    idx := FilterIndices(tasks, (x: Task) => x.id != id);
  }

  /** After DELETE_TASK no task carries the deleted id. */
  lemma RemoveClearsId(tasks: seq<Task>, id: string)
    ensures !HasId(RemoveById(tasks, id), id)
  {
    var r := RemoveById(tasks, id);
    forall i | 0 <= i < |r| ensures r[i].id != id {
      assert r[i] in tasks;
    }
  }

  /** DELETE_TASK for an id no task carries changes nothing. */
  lemma RemoveAbsentIsNoop(tasks: seq<Task>, id: string)
    requires !HasId(tasks, id)
    ensures RemoveById(tasks, id) == tasks
  {
    FilterAll(tasks, (x: Task) => x.id != id);
  }

  /** Deleting the same id twice is deleting it once. */
  lemma RemoveIdempotent(tasks: seq<Task>, id: string)
    ensures RemoveById(RemoveById(tasks, id), id) == RemoveById(tasks, id)
  {
    FilterIdempotent(tasks, (x: Task) => x.id != id);
  }

  // ---------------------------------------------------------------------------
  // Id uniqueness: kept by every action, given a fresh ADD_TASK payload

  /** UPDATE_TASK leaves the sequence of ids as it was. */
  lemma ReplaceKeepsDistinct(tasks: seq<Task>, t: Task)
    requires DistinctIds(tasks)
    ensures DistinctIds(ReplaceById(tasks, t))
  {
    ReplaceByIdSpec(tasks, t);
  }

  /** DELETE_TASK keeps a subsequence, so distinct ids stay distinct. */
  lemma RemoveKeepsDistinct(tasks: seq<Task>, id: string)
    requires DistinctIds(tasks)
    ensures DistinctIds(RemoveById(tasks, id))
  {
    var idx := RemoveByIdSpec(tasks, id);
    var r := RemoveById(tasks, id);
    forall i, j | 0 <= i < j < |r| ensures r[i].id != r[j].id {
      assert idx[i] < idx[j];
    }
  }

  /** What an action must satisfy for the ids to stay distinct. */
  predicate Admissible(state: TaskState, action: TaskAction)
  {
    match action
    case AddTask(t) => !HasId(state.tasks, t.id)
    case SetTasks(ts) => DistinctIds(ts)
    case _ => true
  }

  lemma ReduceKeepsDistinct(state: TaskState, action: TaskAction)
    requires DistinctIds(state.tasks) && Admissible(state, action)
    ensures DistinctIds(Reduce(state, action).tasks)
  {
    match action
    case UpdateTask(t) => ReplaceKeepsDistinct(state.tasks, t);
    case DeleteTask(id) => RemoveKeepsDistinct(state.tasks, id);
    case AddTask(t) =>
      var r := state.tasks + [t];
      forall i, j | 0 <= i < j < |r| ensures r[i].id != r[j].id {
        if j == |state.tasks| {
          assert r[i] == state.tasks[i];
        }
      }
    case _ =>
  }

  /** Every action in the replay is admissible where it is applied. */
  predicate AllAdmissible(state: TaskState, actions: seq<TaskAction>)
    decreases |actions|
  {
    actions == []
    || (Admissible(state, actions[0]) && AllAdmissible(Reduce(state, actions[0]), actions[1..]))
  }

  /** Replaying admissible actions keeps the ids distinct. */
  lemma {:induction false} ReplayKeepsDistinct(state: TaskState, actions: seq<TaskAction>)
    requires DistinctIds(state.tasks) && AllAdmissible(state, actions)
    ensures DistinctIds(ReduceAll(state, actions).tasks)
    decreases |actions|
  {
    if actions != [] {
      ReduceKeepsDistinct(state, actions[0]);
      ReplayKeepsDistinct(Reduce(state, actions[0]), actions[1..]);
    }
  }

  // ---------------------------------------------------------------------------
  // The provider

  /** The three tasks the simulated fetch delivers. */
  const MockTasks: seq<Task> := [
    Task("1", "Review Component Architecture", "Study React component patterns and best practices",
         High, Work, false, Some("2024-01-15"), "2024-01-10"),
    Task("2", "Implement State Management", "Set up context API and custom hooks",
         Medium, Work, true, None, "2024-01-08"),
    Task("3", "Grocery Shopping", "Buy ingredients for weekend cooking",
         Low, Shopping, false, Some("2024-01-12"), "2024-01-09")
  ]

  lemma MockTasksDistinct()
    ensures DistinctIds(MockTasks)
  {
  }

  /**
   * The provider's one reducer state. Each operation runs as one atomic step
   * (the simulated delays are not modelled); the clock readings `addTask`
   * uses for `id` and `createdAt` are parameters.
   */
  class TaskProvider {
    var state: TaskState

    /**
     * Mounting the provider: the initial state, then the mount effect's
     * fetch, so the store holds the mock tasks before anything else runs.
     */
    constructor()
      ensures state == TaskState(MockTasks, false, None)
    {
      state := InitialState;
      new;
      FetchTasks();
    }

    method Dispatch(action: TaskAction)
      modifies this
      ensures state == Reduce(old(state), action)
    {
      state := Reduce(state, action);
    }

    /** SET_LOADING true, then SET_TASKS with the mock tasks. */
    method FetchTasks()
      modifies this
      ensures state.tasks == MockTasks && !state.loading
      ensures state.error == old(state.error)
    {
      Dispatch(SetLoading(true));
      Dispatch(SetTasks(MockTasks));
    }

    /** Builds the task from the draft and the store's `id` and `createdAt`, then ADD_TASK. */
    method AddTask(draft: Draft, id: string, createdAt: string) returns (task: Task)
      modifies this
      ensures task.id == id && task.createdAt == createdAt
      ensures task.title == draft.title && task.description == draft.description
      ensures task.priority == draft.priority && task.category == draft.category
      ensures task.completed == draft.completed && task.dueDate == draft.dueDate
      ensures state == old(state).(tasks := old(state.tasks) + [task])
    {
      task := draft.WithIdentity(id, createdAt);
      Dispatch(TaskAction.AddTask(task));
    }

    method UpdateTask(task: Task)
      modifies this
      ensures state == old(state).(tasks := ReplaceById(old(state.tasks), task))
    {
      Dispatch(TaskAction.UpdateTask(task));
    }

    method DeleteTask(id: string)
      modifies this
      ensures state == old(state).(tasks := RemoveById(old(state.tasks), id))
    {
      Dispatch(TaskAction.DeleteTask(id));
    }
  }
}
