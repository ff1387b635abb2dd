/**
 * The profile page's statistics: completed and total counts, the
 * completion rate, the per-category and per-priority histograms built by
 * `reduce`, and the achievement rules.
 */
module Profile {
  import opened Builtins
  import opened TaskContext

  function CompletedTasks(tasks: seq<Task>): (r: nat)
    ensures r <= |tasks|
  {
    Count(tasks, (t: Task) => t.completed)
  }

  /**
   * `totalTasks > 0 ? Math.round(completed / total * 100) : 0`: zero for an
   * empty list, otherwise the nearest integer to 100·completed/total with
   * halves rounded up, always within [0, 100].
   */
  function CompletionRate(tasks: seq<Task>): (r: nat)
    ensures r <= 100
    ensures |tasks| == 0 ==> r == 0
    ensures |tasks| > 0 ==>
      2 * |tasks| * r <= 200 * CompletedTasks(tasks) + |tasks| < 2 * |tasks| * (r + 1)
  {
    if |tasks| > 0 then RoundedPercent(CompletedTasks(tasks), |tasks|) else 0
  }

  // ---------------------------------------------------------------------------
  // Histograms

  /** `acc[k] || 0` */
  function Lookup<K>(m: map<K, nat>, k: K): nat
  {
    if k in m then m[k] else 0
  }

  /**
   * `tasks.reduce((acc, task) => { acc[key(task)] = (acc[key(task)] || 0) + 1; return acc }, {})`,
   * folding from the left as `reduce` does.
   */
  function Histogram<K>(tasks: seq<Task>, key: Task -> K): map<K, nat>
    decreases |tasks|
  {
    if tasks == [] then map[]
    else
      var acc := Histogram(tasks[..|tasks| - 1], key);
      var k := key(tasks[|tasks| - 1]);
      acc[k := Lookup(acc, k) + 1]
  }

  /**
   * Each entry counts the tasks with that key, and a key has an entry
   * exactly when some task carries it.
   */
  lemma {:induction false} HistogramCounts<K>(tasks: seq<Task>, key: Task -> K, k: K, p: Task -> bool)
    requires forall i :: 0 <= i < |tasks| ==> p(tasks[i]) == (key(tasks[i]) == k)
    ensures Lookup(Histogram(tasks, key), k) == Count(tasks, p)
    ensures k in Histogram(tasks, key) <==> exists i :: 0 <= i < |tasks| && key(tasks[i]) == k
    decreases |tasks|
  {
    if tasks != [] {
      var n := |tasks| - 1;
      var front, last := tasks[..n], tasks[n];
      forall i | 0 <= i < |front| ensures p(front[i]) == (key(front[i]) == k) {
        assert front[i] == tasks[i];
      }
      HistogramCounts(front, key, k, p);
      assert tasks == front + [last];
      FilterAppend(front, [last], p);
      assert Filter([last], p) == if p(last) then [last] else [];
      if exists i :: 0 <= i < |front| && key(front[i]) == k {
        var i :| 0 <= i < |front| && key(front[i]) == k;
        assert key(tasks[i]) == k;
      }
      if exists i :: 0 <= i < |tasks| && key(tasks[i]) == k {
        var i :| 0 <= i < |tasks| && key(tasks[i]) == k;
        if i < n {
          assert key(front[i]) == k;
        }
      }
    }
  }

  ghost predicate DistinctKeys<K>(keys: seq<K>)
  {
    forall i, j :: 0 <= i < j < |keys| ==> keys[i] != keys[j]
  }

  /** The sum of the entries for `keys`, missing entries counting 0. */
  function SumOver<K>(keys: seq<K>, m: map<K, nat>): nat
    decreases |keys|
  {
    if keys == [] then 0 else Lookup(m, keys[0]) + SumOver(keys[1..], m)
  }

  lemma {:induction false} SumOverEmpty<K>(keys: seq<K>)
    ensures SumOver(keys, map[]) == 0
    decreases |keys|
  {
    if keys != [] {
      SumOverEmpty(keys[1..]);
    }
  }

  lemma {:induction false} SumOverOther<K>(keys: seq<K>, m: map<K, nat>, k: K, v: nat)
    requires k !in keys
    ensures SumOver(keys, m[k := v]) == SumOver(keys, m)
    decreases |keys|
  {
    if keys != [] {
      SumOverOther(keys[1..], m, k, v);
    }
  }

  lemma {:induction false} SumOverBump<K>(keys: seq<K>, m: map<K, nat>, k: K)
    requires k in keys && DistinctKeys(keys)
    ensures SumOver(keys, m[k := Lookup(m, k) + 1]) == SumOver(keys, m) + 1
    decreases |keys|
  {
    if keys[0] == k {
      forall j | 0 <= j < |keys[1..]| ensures keys[1..][j] != k {
        assert keys[1..][j] == keys[j + 1];
      }
      SumOverOther(keys[1..], m, k, Lookup(m, k) + 1);
    } else {
      assert k in keys[1..] by {
        var j :| 0 <= j < |keys| && keys[j] == k;
        assert keys[1..][j - 1] == k;
      }
      SumOverBump(keys[1..], m, k);
    }
  }

  /** Over a list of distinct keys covering every task, the entries sum to the task count. */
  lemma {:induction false} HistogramTotal<K>(tasks: seq<Task>, key: Task -> K, keys: seq<K>)
    requires DistinctKeys(keys)
    requires forall i :: 0 <= i < |tasks| ==> key(tasks[i]) in keys
    ensures SumOver(keys, Histogram(tasks, key)) == |tasks|
    decreases |tasks|
  {
    if tasks != [] {
      var n := |tasks| - 1;
      forall i | 0 <= i < n ensures key(tasks[..n][i]) in keys {
        assert tasks[..n][i] == tasks[i];
      }
      HistogramTotal(tasks[..n], key, keys);
      var acc := Histogram(tasks[..n], key);
      assert Histogram(tasks, key) == acc[key(tasks[n]) := Lookup(acc, key(tasks[n])) + 1];
      SumOverBump(keys, acc, key(tasks[n]));
    } else {
      SumOverEmpty(keys);
    }
  }

  function CategoryOf(t: Task): Category { t.category }

  function PriorityOf(t: Task): Priority { t.priority }

  function TasksByCategory(tasks: seq<Task>): map<Category, nat>
  {
    Histogram(tasks, CategoryOf)
  }

  function TasksByPriority(tasks: seq<Task>): map<Priority, nat>
  {
    Histogram(tasks, PriorityOf)
  }

  /** One category's entry counts the tasks of that category and exists only if one does. */
  lemma CategoryEntry(tasks: seq<Task>, c: Category)
    ensures Lookup(TasksByCategory(tasks), c) == Count(tasks, (t: Task) => t.category == c)
    ensures c in TasksByCategory(tasks) <==> exists i :: 0 <= i < |tasks| && tasks[i].category == c
  {
    HistogramCounts(tasks, CategoryOf, c, (t: Task) => t.category == c);
    if exists i :: 0 <= i < |tasks| && tasks[i].category == c {
      var i :| 0 <= i < |tasks| && tasks[i].category == c;
      assert CategoryOf(tasks[i]) == c;
    }
  }

  /** The four category entries add up to the task count. */
  lemma CategoryTotal(tasks: seq<Task>)
    ensures Lookup(TasksByCategory(tasks), Work) + Lookup(TasksByCategory(tasks), Personal)
          + Lookup(TasksByCategory(tasks), Shopping) + Lookup(TasksByCategory(tasks), Health) == |tasks|
  {
    var keys := [Work, Personal, Shopping, Health];
    forall i | 0 <= i < |tasks| ensures CategoryOf(tasks[i]) in keys {
      match tasks[i].category
      case Work => assert keys[0] == Work;
      case Personal => assert keys[1] == Personal;
      case Shopping => assert keys[2] == Shopping;
      case Health => assert keys[3] == Health;
    }
    HistogramTotal(tasks, CategoryOf, keys);
    var m := TasksByCategory(tasks);
    assert SumOver(keys, m) == Lookup(m, Work) + SumOver(keys[1..], m);
    assert SumOver(keys[1..], m) == Lookup(m, Personal) + SumOver(keys[2..], m);
    assert SumOver(keys[2..], m) == Lookup(m, Shopping) + SumOver(keys[3..], m);
    assert SumOver(keys[3..], m) == Lookup(m, Health) + SumOver(keys[4..], m);
  }

  /** One priority's entry counts the tasks of that priority and exists only if one does. */
  lemma PriorityEntry(tasks: seq<Task>, p: Priority)
    ensures Lookup(TasksByPriority(tasks), p) == Count(tasks, (t: Task) => t.priority == p)
    ensures p in TasksByPriority(tasks) <==> exists i :: 0 <= i < |tasks| && tasks[i].priority == p
  {
    HistogramCounts(tasks, PriorityOf, p, (t: Task) => t.priority == p);
    if exists i :: 0 <= i < |tasks| && tasks[i].priority == p {
      var i :| 0 <= i < |tasks| && tasks[i].priority == p;
      assert PriorityOf(tasks[i]) == p;
    }
  }

  /** The three priority entries add up to the task count. */
  lemma PriorityTotal(tasks: seq<Task>)
    ensures Lookup(TasksByPriority(tasks), Low) + Lookup(TasksByPriority(tasks), Medium)
          + Lookup(TasksByPriority(tasks), High) == |tasks|
  {
    var keys := [Low, Medium, High];
    forall i | 0 <= i < |tasks| ensures PriorityOf(tasks[i]) in keys {
      match tasks[i].priority
      case Low => assert keys[0] == Low;
      case Medium => assert keys[1] == Medium;
      case High => assert keys[2] == High;
    }
    HistogramTotal(tasks, PriorityOf, keys);
    var m := TasksByPriority(tasks);
    assert SumOver(keys, m) == Lookup(m, Low) + SumOver(keys[1..], m);
    assert SumOver(keys[1..], m) == Lookup(m, Medium) + SumOver(keys[2..], m);
    assert SumOver(keys[2..], m) == Lookup(m, High) + SumOver(keys[3..], m);
  }

  // ---------------------------------------------------------------------------
  // Achievements

  datatype Achievement = Achievement(title: string, description: string, earned: bool)

  /** The four rules, in the page's order. */
  function Achievements(tasks: seq<Task>): seq<Achievement>
  {
    var total, completed, rate := |tasks|, CompletedTasks(tasks), CompletionRate(tasks);
    [ Achievement("First Task", "Created your first task", total > 0),
      Achievement("Task Master", "Completed 10 tasks", completed >= 10),
      Achievement("Productivity Pro", "Achieved 80% completion rate", rate >= 80),
      Achievement("Week Warrior", "Used the app for 7 days", true) ]
  }

  function EarnedAchievements(tasks: seq<Task>): seq<Achievement>
  {
    Filter(Achievements(tasks), (a: Achievement) => a.earned)
  }

  /** "First Task" needs a task, "Task Master" ten completed tasks, "Productivity Pro" a rate of 80. */
  lemma AchievementRules(tasks: seq<Task>)
    ensures |Achievements(tasks)| == 4
    ensures Achievements(tasks)[0].earned <==> |tasks| > 0
    ensures Achievements(tasks)[1].earned <==> CompletedTasks(tasks) >= 10
    ensures Achievements(tasks)[2].earned <==> CompletionRate(tasks) >= 80
    ensures Achievements(tasks)[3].earned
  {
  }

  /** Every other achievement implies "First Task": they all need a task to exist. */
  lemma EarnedNeedsTasks(tasks: seq<Task>)
    ensures Achievements(tasks)[1].earned || Achievements(tasks)[2].earned ==> Achievements(tasks)[0].earned
  {
  }

  /**
   * The earned list holds "Week Warrior" plus one entry per other rule that
   * holds, so it has between one and four entries.
   */
  lemma EarnedCount(tasks: seq<Task>)
    ensures |EarnedAchievements(tasks)| ==
      1 + (if |tasks| > 0 then 1 else 0) + (if CompletedTasks(tasks) >= 10 then 1 else 0)
        + (if CompletionRate(tasks) >= 80 then 1 else 0)
    ensures 1 <= |EarnedAchievements(tasks)| <= 4
  {
    var a := Achievements(tasks);
    var p := (x: Achievement) => x.earned;
    assert a == [a[0]] + [a[1]] + [a[2]] + [a[3]];
    FilterAppend([a[0]] + [a[1]] + [a[2]], [a[3]], p);
    FilterAppend([a[0]] + [a[1]], [a[2]], p);
    FilterAppend([a[0]], [a[1]], p);
    assert Filter([a[0]], p) == if a[0].earned then [a[0]] else [];
    assert Filter([a[1]], p) == if a[1].earned then [a[1]] else [];
    assert Filter([a[2]], p) == if a[2].earned then [a[2]] else [];
    assert Filter([a[3]], p) == [a[3]];
  }
}
