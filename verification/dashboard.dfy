/**
 * The dashboard's derived values: the "recent tasks" panel, the local
 * completed and pending counts, and the four stat cards, each showing the
 * remote user statistic unless it is absent or zero (JavaScript's falsy
 * `||`), in which case the locally computed value is shown.
 */
module Dashboard {
  import opened Builtins
  import opened TaskContext
  import Profile

  /**
   * The "recent tasks" panel as written, `slice(0, 5)`: the first five tasks
   * in store order. New tasks are appended, so these are the oldest five.
   */
  function RecentTasks(tasks: seq<Task>): (r: seq<Task>)
    ensures |r| <= 5 && |r| <= |tasks|
    ensures |tasks| >= 5 ==> |r| == 5
    ensures |tasks| <= 5 ==> r == tasks
    ensures forall i :: 0 <= i < |r| ==> r[i] == tasks[i]
  {
    if |tasks| <= 5 then tasks else tasks[..5]
  }

  /**
   * Once five tasks exist, adding a task leaves the panel as it was, so the
   * new task never appears in it.
   */
  lemma RecentTasksMissNewTask(state: TaskState, t: Task)
    requires |state.tasks| >= 5
    ensures RecentTasks(Reduce(state, AddTask(t)).tasks) == RecentTasks(state.tasks)
    ensures t !in state.tasks ==> t !in RecentTasks(Reduce(state, AddTask(t)).tasks)
  {
    var after := Reduce(state, AddTask(t)).tasks;
    assert after == state.tasks + [t];
    assert after[..5] == state.tasks[..5];
    if t in RecentTasks(after) {
      var i :| 0 <= i < |RecentTasks(after)| && RecentTasks(after)[i] == t;
      assert state.tasks[i] == t;
    }
  }

  /** The last `min(k, n)` tasks, newest first. */
  function Newest(tasks: seq<Task>, k: nat): (r: seq<Task>)
    ensures |r| == if k <= |tasks| then k else |tasks|
    ensures forall i :: 0 <= i < |r| ==> r[i] == tasks[|tasks| - 1 - i]
    decreases k
  {
    if k == 0 || tasks == [] then []
    else [tasks[|tasks| - 1]] + Newest(tasks[..|tasks| - 1], k - 1)
  }

  /** The panel as its title evidently intends: the five newest tasks, newest first. */
  function MostRecentTasks(tasks: seq<Task>): seq<Task>
  {
    Newest(tasks, 5)
  }

  /** A task just added heads the corrected panel, whatever was there before. */
  lemma AddedTaskShownFirst(state: TaskState, t: Task)
    ensures |MostRecentTasks(Reduce(state, AddTask(t)).tasks)| >= 1
    ensures MostRecentTasks(Reduce(state, AddTask(t)).tasks)[0] == t
    ensures MostRecentTasks(Reduce(state, AddTask(t)).tasks)[1..]
      == Newest(state.tasks, 4)
  {
    var after := Reduce(state, AddTask(t)).tasks;
    assert after == state.tasks + [t];
    assert after[..|after| - 1] == state.tasks;
  }

  function PendingTasks(tasks: seq<Task>): (r: nat)
    ensures r <= |tasks|
  {
    Count(tasks, (t: Task) => !t.completed)
  }

  /** The completed and pending counts add up to the number of tasks. */
  lemma CountsPartition(tasks: seq<Task>)
    ensures Profile.CompletedTasks(tasks) + PendingTasks(tasks) == |tasks|
  {
    CountSplit(tasks, (t: Task) => t.completed, (t: Task) => !t.completed);
  }

  /** What the user-statistics request resolves with. */
  datatype UserStats = UserStats(totalTasks: int, completedTasks: int, pendingTasks: int, productivity: int)

  /** The constant record the mock statistics service returns. */
  const MockUserStats := UserStats(24, 18, 6, 75)

  /** `remote || local` on a number: absent (`undefined`) and `0` are falsy. */
  function OrElse(remote: Option<int>, local: int): (r: int)
    ensures r == local || (remote.Some? && r == remote.value)
    ensures r == local <==> remote.None? || remote.value == 0 || remote.value == local
  {
    match remote
    case Some(v) => if v != 0 then v else local
    case None => local
  }

  /** `stats?.field` for each of the four fields. */
  function Field(stats: Option<UserStats>, pick: UserStats -> int): Option<int>
  {
    match stats
    case Some(s) => Some(pick(s))
    case None => None
  }

  /**
   * The local productivity: `Math.round(completed / n * 100) || 0`. With no
   * tasks, 0/0 is NaN and `|| 0` turns it into 0.
   */
  function LocalProductivity(tasks: seq<Task>): (r: nat)
    ensures r <= 100
    ensures |tasks| == 0 ==> r == 0
  {
    if |tasks| == 0 then 0 else RoundedPercent(Profile.CompletedTasks(tasks), |tasks|)
  }

  /** The four values shown on the stat cards. */
  datatype Cards = Cards(total: int, completed: int, pending: int, productivity: int)

  function StatCards(tasks: seq<Task>, stats: Option<UserStats>): (r: Cards)
    ensures stats.None? ==>
      && r.total == |tasks| && r.completed == Profile.CompletedTasks(tasks)
      && r.pending == PendingTasks(tasks) && r.productivity == LocalProductivity(tasks)
    ensures stats.Some? ==>
      && (r.total == if stats.value.totalTasks != 0 then stats.value.totalTasks else |tasks|)
      && (r.completed == if stats.value.completedTasks != 0 then stats.value.completedTasks
                         else Profile.CompletedTasks(tasks))
      && (r.pending == if stats.value.pendingTasks != 0 then stats.value.pendingTasks
                       else PendingTasks(tasks))
      && (r.productivity == if stats.value.productivity != 0 then stats.value.productivity
                            else LocalProductivity(tasks))
  {
    Cards(OrElse(Field(stats, (s: UserStats) => s.totalTasks), |tasks|),
          OrElse(Field(stats, (s: UserStats) => s.completedTasks), Profile.CompletedTasks(tasks)),
          OrElse(Field(stats, (s: UserStats) => s.pendingTasks), PendingTasks(tasks)),
          OrElse(Field(stats, (s: UserStats) => s.productivity), LocalProductivity(tasks)))
  }

  /**
   * Without remote statistics the cards are consistent: completed and
   * pending add up to the total, and productivity is the profile page's
   * completion rate, so the two pages agree.
   */
  lemma LocalCardsConsistent(tasks: seq<Task>)
    ensures StatCards(tasks, None).completed + StatCards(tasks, None).pending == StatCards(tasks, None).total
    ensures StatCards(tasks, None).productivity == Profile.CompletionRate(tasks)
    ensures 0 <= StatCards(tasks, None).productivity <= 100
  {
    CountsPartition(tasks);
  }

  /** The mock service's figures are all non-zero, so they are shown whatever the task list. */
  lemma MockStatsShown(tasks: seq<Task>)
    ensures StatCards(tasks, Some(MockUserStats)) == Cards(24, 18, 6, 75)
  {
  }
}
