# TaskFlow task core in Dafny

This project models the data core of TaskFlow, a single-page task manager
written in React and TypeScript.

- **The task store** (`TaskContext`): the `Task` record, the store state
  `{tasks, loading, error}` and the reducer over six actions. The provider
  holds one reducer state and fetches, adds, updates and deletes tasks by
  dispatching actions.
- **The task list page** (`TasksPage`): the four-way filter (search text,
  category, priority, status), the header counts, and the submit logic of
  the create/edit form.
- **The self-contained task manager** (`TaskManager`): its own task list with
  an all/active/completed filter, add, toggle, delete, and counts. Its
  seeding effect runs on mount and after every change of length, so a list
  left empty is at once refilled with the two seed tasks.
- **The profile page** (`Profile`): the completion rate, the per-category
  and per-priority histograms, and the achievement rules.
- **The dashboard** (`Dashboard`): the "recent tasks" panel, which shows the
  first five tasks in store order (the oldest, despite the name), local counts,
  and the stat cards. Each card shows the remote statistic unless it is
  absent or zero (`||`).
- **The pagination hook** (`Pagination`): a page counter with ceiling-division
  page count and guarded moves.
- **The request-state hook** (`ApiHook`): the `{data, loading, error}` cell
  that a request overwrites when it starts and when it settles.

`Builtins` gives the JavaScript runtime pieces these rely on:
- `filter` and `map` on arrays;
- `toLowerCase` restricted to ASCII letters;
- `includes`;
- `trim`, over JavaScript's full set of white space and line terminators;
- `Math.round` of a percentage, in exact integer arithmetic.

State that the source updates in place is a class. These are `TaskProvider`,
`TaskManager.TaskManager`, `Pagination.Pager` and `ApiHook.Api`. Their
methods state the new state outright. Most do so through a pure function
(`Reduce`, `Seeded`, `Toggled`, `RemoveById`, `GoTo`, `Next`, `Prev`,
`Started`, `Settled`), and the lemmas are about those functions. A few state
it as an explicit record instead: `TaskManager.TaskManager.AddTask`,
`TaskProvider.AddTask`, `TaskProvider.FetchTasks`, `Pager.Reset` and
`Pager.SetTotalItems`.

Five small helpers model single source expressions and are stated by the
members that use them: `ApiHook.ErrorMessage` (the message choice at
src/hooks/useApi.ts:33) by `ApiHook.SettledSpec`, `TasksPage.OptionalDate`
(`dueDate || undefined`) by `TasksPage.HandleSubmit`, `TaskManager.Keeps`
(the status `switch`) by `TaskManager.FilterByStatusSpec`, `Dashboard.Field`
(`stats?.field`) by `Dashboard.StatCards`, and `Profile.Lookup`
(`acc[key] || 0`) by `Profile.HistogramCounts`.

Three behaviours of the code worth knowing:
- The store itself does not reject an empty title. Only the two forms check
  the title, after trimming.
- Updating an id that no task carries is a silent no-op. No "not found"
  error is raised.
- `SET_TASKS` clears `loading` but keeps a stale `error`.

## Model

| member | source | states |
|---|---|---|
| Builtins.Filter | src/contexts/TaskContext.tsx:53 | the result is no longer than the input, every kept element is in the input and satisfies the predicate, and every element satisfying it is kept |
| Builtins.Count | src/pages/Tasks.tsx:149-151 | `filter(p).length`; specified through `Filter` and `Builtins.CountSplit` |
| Builtins.Map | src/components/TaskManager.tsx:94-96 | `Array.prototype.map`; specified through `TaskManager.ToggledSpec` and `TaskContext.ReplaceByIdSpec` |
| Builtins.FilterIndices | src/pages/Tasks.tsx:135-145 | `filter` keeps order: its result is the input read at strictly increasing positions, and a position is read exactly when its element satisfies the predicate |
| Builtins.FilterAppend | src/pages/Profile.tsx:76 | filtering distributes over concatenation |
| Builtins.FilterAll | src/components/TaskManager.tsx:58-59 | a predicate true on every element keeps the whole list |
| Builtins.FilterNone | src/pages/Tasks.tsx:140-142 | a predicate false on every element keeps nothing |
| Builtins.FilterIdempotent | src/contexts/TaskContext.tsx:53 | filtering twice by the same predicate is filtering once |
| Builtins.FilterCongruent | src/pages/Tasks.tsx:135-145 | predicates that agree on the list's elements filter it alike |
| Builtins.CountSplit | src/pages/Tasks.tsx:149-150 | the counts of a predicate and of its negation add up to the list length |
| Builtins.ToLowerIdempotent | src/pages/Tasks.tsx:136-137 | lower-casing a lower-cased string changes nothing |
| Builtins.ToLower | src/pages/Tasks.tsx:136-137 | ASCII `toLowerCase`; specified by `Builtins.ToLowerIdempotent` and used by `TasksPage.SearchIgnoresCase` |
| Builtins.Includes | src/pages/Tasks.tsx:136-137 | `String.prototype.includes`; specified by `Builtins.IncludesIff` and `Builtins.IncludesEmpty` |
| Builtins.Trim | src/pages/Tasks.tsx:46 | `String.prototype.trim`; specified by `Builtins.TrimCut` and `Builtins.TrimEmptyIff` |
| Builtins.IncludesFromOccurrence | src/pages/Tasks.tsx:136-137 | an occurrence of the needle at any position makes `includes` true |
| Builtins.OccurrenceFromIncludes | src/pages/Tasks.tsx:136-137 | when `includes` is true, it returns a position where the needle occurs |
| Builtins.IncludesIff | src/pages/Tasks.tsx:136-137 | `includes` holds exactly when the needle occurs at some position |
| Builtins.IncludesEmpty | src/pages/Tasks.tsx:136-137 | the empty needle is included in every string |
| Builtins.TrimStartCut | src/pages/Tasks.tsx:46 | trimming the start drops a prefix made only of white space, and what remains starts with a non-space or is empty |
| Builtins.TrimEndCut | src/pages/Tasks.tsx:46 | trimming the end drops a suffix made only of white space, and what remains ends with a non-space or is empty |
| Builtins.TrimCut | src/pages/Tasks.tsx:46 | `trim` returns the slice between the leading and the trailing white space |
| Builtins.TrimEmptyIff | src/components/TaskManager.tsx:64 | a string trims to empty exactly when every character is white space |
| Builtins.RoundedPercent | src/pages/Profile.tsx:28 | the nearest integer to 100·part/whole with halves rounded up, bracketed exactly; at most 100 when part ≤ whole |
| TaskContext.ReduceFrames | src/contexts/TaskContext.tsx:35-60 | each action changes only the fields it names: SET_LOADING `loading`; SET_TASKS `tasks` and clears `loading`, keeping `error`; the three list actions only `tasks`; SET_ERROR `error` and clears `loading` |
| TaskContext.Reduce | src/contexts/TaskContext.tsx:35-60 | `taskReducer`; specified by `ReduceFrames`, `AddAppends` and `ReduceKeepsDistinct` |
| TaskContext.ReduceAll | src/contexts/TaskContext.tsx:80 | the reducer applied to a sequence of dispatched actions; specified by `ReplayKeepsDistinct` |
| TaskContext.ReplaceById | src/contexts/TaskContext.tsx:46-48 | the UPDATE_TASK `map`; specified by `ReplaceByIdSpec`, `ReplaceAbsentIsNoop`, `ReplacePresence`, `ReplaceIdempotent` and `ReplaceKeepsDistinct` |
| TaskContext.RemoveById | src/contexts/TaskContext.tsx:53 | the DELETE_TASK `filter`; specified by `RemoveByIdSpec`, `RemoveClearsId`, `RemoveAbsentIsNoop`, `RemoveIdempotent` and `RemoveKeepsDistinct` |
| TaskContext.AddAppends | src/contexts/TaskContext.tsx:41-42 | ADD_TASK keeps the old list as a prefix and puts the payload last |
| TaskContext.ReplaceByIdSpec | src/contexts/TaskContext.tsx:43-49 | UPDATE_TASK keeps the length and every id; elements with the payload's id become the payload and all others are unchanged |
| TaskContext.ReplaceAbsentIsNoop | src/contexts/TaskContext.tsx:43-49 | updating an id that no task carries changes nothing |
| TaskContext.ReplacePresence | src/contexts/TaskContext.tsx:43-49 | the payload is in the updated list exactly when its id was present |
| TaskContext.ReplaceIdempotent | src/contexts/TaskContext.tsx:43-49 | the same update applied twice equals it applied once |
| TaskContext.RemoveByIdSpec | src/contexts/TaskContext.tsx:50-54 | DELETE_TASK keeps, in order, exactly the tasks whose id differs |
| TaskContext.RemoveClearsId | src/contexts/TaskContext.tsx:50-54 | after a delete no task carries the deleted id |
| TaskContext.RemoveAbsentIsNoop | src/contexts/TaskContext.tsx:50-54 | deleting an id that no task carries changes nothing |
| TaskContext.RemoveIdempotent | src/contexts/TaskContext.tsx:50-54 | deleting the same id twice equals deleting it once |
| TaskContext.ReplaceKeepsDistinct | src/contexts/TaskContext.tsx:43-49 | an update keeps distinct ids distinct |
| TaskContext.RemoveKeepsDistinct | src/contexts/TaskContext.tsx:50-54 | a delete keeps distinct ids distinct |
| TaskContext.ReduceKeepsDistinct | src/contexts/TaskContext.tsx:35-60 | any action keeps ids distinct, provided an added task's id is fresh and a replacing list has distinct ids |
| TaskContext.ReplayKeepsDistinct | src/contexts/TaskContext.tsx:35-60 | a replay of such admissible actions keeps ids distinct |
| TaskContext.MockTasksDistinct | src/contexts/TaskContext.tsx:82-112 | the three fetched mock tasks have distinct ids |
| TaskContext.TaskProvider.constructor | src/contexts/TaskContext.tsx:114-127 | mounting starts from the empty initial state and runs the mount effect's fetch, so the provider holds the mock tasks, not loading and with no error |
| TaskContext.TaskProvider.Dispatch | src/contexts/TaskContext.tsx:80 | the new state is the reducer applied to the old state and the action |
| TaskContext.TaskProvider.FetchTasks | src/contexts/TaskContext.tsx:118-127 | afterwards the tasks are the mock tasks, loading is off, and the error is as before |
| TaskContext.TaskProvider.AddTask | src/contexts/TaskContext.tsx:129-142 | the new task is the draft plus the given id and timestamp, appended at the end; nothing else changes |
| TaskContext.TaskProvider.UpdateTask | src/contexts/TaskContext.tsx:144-151 | the list is replaced by id and nothing else changes |
| TaskContext.TaskProvider.DeleteTask | src/contexts/TaskContext.tsx:153-160 | the list loses the tasks with that id and nothing else changes |
| TasksPage.FilteredTasksSpec | src/pages/Tasks.tsx:135-145 | the filtered list keeps, in order, exactly the tasks that pass all four tests |
| TasksPage.FilteredTasks | src/pages/Tasks.tsx:135-145 | the page's `filteredTasks`; specified by `FilteredTasksSpec`, `StatusOnlySpec` and `SentinelsKeepAll` |
| TasksPage.Matches | src/pages/Tasks.tsx:135-145 | the conjunction of the four tests; specified by `FilteredTasksSpec` |
| TasksPage.MatchesSearch | src/pages/Tasks.tsx:136-137 | case-insensitive containment in title or description; specified by `SearchSpec` and `SearchIgnoresCase` |
| TasksPage.SearchSpec | src/pages/Tasks.tsx:136-137 | the search matches exactly when the lower-cased term occurs in the lower-cased title or description; an empty term matches every task |
| TasksPage.SearchIgnoresCase | src/pages/Tasks.tsx:136-137 | a term and its lower-cased form match the same tasks |
| TasksPage.StatusOnlySpec | src/pages/Tasks.tsx:140-142 | with the other filters open: `completed` keeps the completed tasks, `pending` the others, `all` everything, any other value nothing |
| TasksPage.SentinelsKeepAll | src/pages/Tasks.tsx:135-145 | with an empty search and every selector `all`, no task is filtered out |
| TasksPage.TaskStats | src/pages/Tasks.tsx:147-152 | the total is the list length, completed plus pending is the total, and high-priority tasks are at most the total |
| TasksPage.HandleSubmit | src/pages/Tasks.tsx:43-76 | rejects exactly an all-white-space title. An edit keeps id, `createdAt` and `completed` and takes the rest from the form. A create is not completed. An empty due date becomes absent |
| TaskManager.FilterByStatusSpec | src/components/TaskManager.tsx:52-61 | the view keeps order; `active` keeps exactly the uncompleted tasks and `completed` exactly the completed ones |
| TaskManager.FilterByStatus | src/components/TaskManager.tsx:52-61 | the status view; specified by `FilterByStatusSpec`, `FilterAllIsIdentity` and `ActiveCompletedPartition` |
| TaskManager.Toggled | src/components/TaskManager.tsx:93-97 | the toggle `map`; specified by `ToggledSpec` and `ToggleTwice` |
| TaskManager.InitialTasks | src/components/TaskManager.tsx:28-47 | the two seed tasks, one clock reading each; used by `Seeded` and `DeleteLastReseeds` |
| TaskManager.Seeded | src/components/TaskManager.tsx:26-50 | the list after the seeding effect: never empty, and an already non-empty list is kept |
| TaskManager.DeleteLastReseeds | src/components/TaskManager.tsx:26-50 | deleting the only task leaves the two seed tasks, not an empty list |
| TaskManager.TaskManager.FilteredTasks | src/components/TaskManager.tsx:52-61 | the component's current view; specified through `FilterByStatusSpec` |
| TaskManager.FilterAllIsIdentity | src/components/TaskManager.tsx:58-59 | the `all` view is the whole list |
| TaskManager.ActiveCompletedPartition | src/components/TaskManager.tsx:52-61 | the active and completed views together hold every task |
| TaskManager.ToggledSpec | src/components/TaskManager.tsx:93-97 | toggling negates `completed` on the tasks with that id and changes nothing else |
| TaskManager.ToggleTwice | src/components/TaskManager.tsx:93-97 | toggling the same id twice restores the list |
| TaskManager.TaskStats | src/components/TaskManager.tsx:107-111 | the total is the list length and active plus completed is the total |
| TaskManager.TaskManager.constructor | src/components/TaskManager.tsx:15-50 | starts with the stored list as the mount effect leaves it (seeded when empty, so never empty), the `all` filter, the form closed and empty |
| TaskManager.TaskManager.SeedIfEmpty | src/components/TaskManager.tsx:26-50 | an empty list becomes the two seed tasks; a non-empty one is kept; afterwards the list is non-empty |
| TaskManager.TaskManager.AddTask | src/components/TaskManager.tsx:63-91 | an all-white-space title changes nothing. Otherwise one task is appended with the form's fields, not completed and with no due date, and the form is reset and closed |
| TaskManager.TaskManager.ToggleTask | src/components/TaskManager.tsx:93-97 | the list becomes the toggled list; nothing else changes |
| TaskManager.TaskManager.DeleteTask | src/components/TaskManager.tsx:99-105 | the list loses the tasks with that id and, if that leaves it empty, the seeding effect refills it; nothing else changes |
| Profile.CompletedTasks | src/pages/Profile.tsx:26 | the completed count is at most the list length |
| Profile.CompletionRate | src/pages/Profile.tsx:28 | 0 for no tasks, otherwise the rounded percentage of completed tasks; always within 0..100 |
| Profile.HistogramCounts | src/pages/Profile.tsx:30-38 | the `reduce` histogram's entry for a key is the number of tasks with that key, and a key has an entry exactly when some task carries it |
| Profile.Histogram | src/pages/Profile.tsx:30-38 | the `reduce` fold; specified by `HistogramCounts` and `HistogramTotal` |
| Profile.TasksByCategory | src/pages/Profile.tsx:30-33 | specified by `CategoryEntry` and `CategoryTotal` |
| Profile.TasksByPriority | src/pages/Profile.tsx:35-38 | specified by `PriorityEntry` and `PriorityTotal` |
| Profile.SumOverEmpty | src/pages/Profile.tsx:30-33 | the empty histogram sums to 0 |
| Profile.SumOverOther | src/pages/Profile.tsx:30-33 | changing an entry outside the summed keys leaves the sum unchanged |
| Profile.SumOverBump | src/pages/Profile.tsx:31 | incrementing one listed key's entry raises the sum by one |
| Profile.HistogramTotal | src/pages/Profile.tsx:30-38 | over keys that cover every task, the histogram's entries add up to the task count |
| Profile.CategoryEntry | src/pages/Profile.tsx:30-33 | a category's entry counts that category's tasks, and exists only if one does |
| Profile.CategoryTotal | src/pages/Profile.tsx:30-33 | the four category entries add up to the task count |
| Profile.PriorityEntry | src/pages/Profile.tsx:35-38 | a priority's entry counts that priority's tasks, and exists only if one does |
| Profile.PriorityTotal | src/pages/Profile.tsx:35-38 | the three priority entries add up to the task count |
| Profile.AchievementRules | src/pages/Profile.tsx:49-74 | four achievements. `First Task` needs a task, `Task Master` ten completed tasks, `Productivity Pro` a rate of at least 80. `Week Warrior` is always earned |
| Profile.Achievements | src/pages/Profile.tsx:49-74 | the four achievement records; specified by `AchievementRules` and `EarnedNeedsTasks` |
| Profile.EarnedAchievements | src/pages/Profile.tsx:76 | the earned ones, in order; specified by `EarnedCount` |
| Profile.EarnedNeedsTasks | src/pages/Profile.tsx:49-74 | any of the middle two achievements implies `First Task` |
| Profile.EarnedCount | src/pages/Profile.tsx:76 | the earned list holds `Week Warrior` plus one per rule that holds, so it has 1 to 4 entries |
| Dashboard.RecentTasks | src/pages/Dashboard.tsx:35 | the first `min(5, n)` tasks in store order, which are the oldest ones |
| Dashboard.RecentTasksMissNewTask | src/pages/Dashboard.tsx:35 | once five tasks exist, adding a task leaves the panel unchanged, so a new task never appears in it |
| Dashboard.Newest | src/pages/Dashboard.tsx:35 | the last `min(k, n)` tasks, newest first |
| Dashboard.MostRecentTasks | src/pages/Dashboard.tsx:35 | the evidently intended panel: the five newest tasks; specified by `Newest` and `AddedTaskShownFirst` |
| Dashboard.AddedTaskShownFirst | src/pages/Dashboard.tsx:35 | in the corrected panel a task just added comes first, followed by the four newest before it |
| Dashboard.PendingTasks | src/pages/Dashboard.tsx:37 | the pending count is at most the list length |
| Dashboard.CountsPartition | src/pages/Dashboard.tsx:36-37 | completed plus pending is the list length |
| Dashboard.OrElse | src/pages/Dashboard.tsx:113 | the logical-or fallback yields the local value exactly when the remote one is absent, zero or already equal to it; otherwise the remote value |
| Dashboard.LocalProductivity | src/pages/Dashboard.tsx:136 | 0 without tasks (the NaN of 0/0 falls back to 0), otherwise the rounded completion percentage, within 0..100 |
| Dashboard.StatCards | src/pages/Dashboard.tsx:113-136 | with no remote statistics every card shows the local value. With remote statistics each card shows the remote figure unless it is zero |
| Dashboard.LocalCardsConsistent | src/pages/Dashboard.tsx:113-136 | without remote statistics completed plus pending equals the total, and productivity equals the profile page's completion rate |
| Dashboard.MockStatsShown | src/hooks/useApi.ts:57-62 | the mock service's non-zero figures are shown whatever the task list |
| Pagination.CeilDiv | src/hooks/usePagination.ts:13 | the ceiling of a/b: `(r-1)·b < a ≤ r·b` |
| Pagination.PageCountSpec | src/hooks/usePagination.ts:13 | no items make no pages; otherwise the pages hold every item and the last page is non-empty |
| Pagination.PageCount | src/hooks/usePagination.ts:13 | `totalPages`; specified by `CeilDiv` and `PageCountSpec` |
| Pagination.GoTo | src/hooks/usePagination.ts:17-21 | `goToPage` on the state values; specified by `GoToWithoutItems` and `MovesKeepInRange` |
| Pagination.Next | src/hooks/usePagination.ts:23-27 | `nextPage` on the state values; specified by `StepsAreUnit`, `NextThenPrev` and `MovesKeepInRange` |
| Pagination.Prev | src/hooks/usePagination.ts:29-33 | `prevPage` on the state values; specified by `StepsAreUnit`, `NextThenPrev` and `MovesKeepInRange` |
| Pagination.GoToWithoutItems | src/hooks/usePagination.ts:17-21 | with no items `goToPage` never moves |
| Pagination.StepsAreUnit | src/hooks/usePagination.ts:23-33 | next and previous move by exactly one, and only when allowed; previous never goes below 1 from a page ≥ 1 |
| Pagination.NextThenPrev | src/hooks/usePagination.ts:23-33 | from a page ≥ 1, a next that moved is undone by a previous |
| Pagination.NextThenPrevBelowFirst | src/hooks/usePagination.ts:15-33 | from page 0 the round trip does not come back, so the page ≥ 1 condition is needed |
| Pagination.MovesKeepInRange | src/hooks/usePagination.ts:17-33 | go-to, next and previous keep an in-range page in range |
| Pagination.SetTotalItemsMayLeaveRange | src/hooks/usePagination.ts:11-13 | shrinking the item count does not clamp the page, which can leave the range |
| Pagination.Pager.constructor | src/hooks/usePagination.ts:9-11 | options default to page 1 and 10 per page; the counter starts at the initial page with no items |
| Pagination.Pager.TotalPages | src/hooks/usePagination.ts:13 | for a non-negative item count, the page count is non-negative and 0 exactly when there are no items |
| Pagination.Pager.HasNextPage | src/hooks/usePagination.ts:14 | true exactly when the current page is below the page count |
| Pagination.Pager.HasPrevPage | src/hooks/usePagination.ts:15 | true exactly when the current page is above 1 |
| Pagination.Pager.GoToPage | src/hooks/usePagination.ts:17-21 | takes a page in `[1, totalPages]`, ignores any other |
| Pagination.Pager.NextPage | src/hooks/usePagination.ts:23-27 | advances by one only when there is a next page |
| Pagination.Pager.PrevPage | src/hooks/usePagination.ts:29-33 | goes back by one only when there is a previous page |
| Pagination.Pager.Reset | src/hooks/usePagination.ts:35-37 | the current page becomes the initial page whatever the state; the item count stays |
| Pagination.Pager.SetTotalItems | src/hooks/usePagination.ts:11 | only the item count changes; the page is not clamped |
| ApiHook.StartedSpec | src/hooks/useApi.ts:26 | starting sets `loading`, clears the error and keeps the data |
| ApiHook.Started | src/hooks/useApi.ts:26 | the state on entering a request; specified by `StartedSpec` |
| ApiHook.Settled | src/hooks/useApi.ts:29-36 | the state a finished request leaves; specified by `SettledSpec` |
| ApiHook.SettledSpec | src/hooks/useApi.ts:29-36 | a settled request is not loading. It holds data exactly when it resolved, and an error exactly when it rejected: the `Error`'s message, or the generic message otherwise |
| ApiHook.IdleIsQuiet | src/hooks/useApi.ts:18-22 | the initial state has no data, no error and no request in flight |
| ApiHook.Api.constructor | src/hooks/useApi.ts:18-22 | the hook starts idle |
| ApiHook.Api.Start | src/hooks/useApi.ts:26 | the state becomes the started state |
| ApiHook.Api.Succeed | src/hooks/useApi.ts:30 | the state becomes the resolved value, not loading, no error |
| ApiHook.Api.Fail | src/hooks/useApi.ts:33-34 | the state becomes no data, not loading, the error message |
| ApiHook.Api.Execute | src/hooks/useApi.ts:24-39 | hands back the request's outcome and leaves the settled state, whatever the previous one; never loading, never both data and error |
| ApiHook.Api.Reset | src/hooks/useApi.ts:41-43 | the state becomes the initial state whatever it was, so resetting twice is resetting once |

## Findings

| source | as written | input that shows it | evidently intended | confidence | as-written member | corrected member |
|---|---|---|---|---|---|---|
| src/pages/Dashboard.tsx:35 | the "Recent Tasks" panel shows `tasks.slice(0, 5)`, the first five tasks in store order; ADD_TASK appends (src/contexts/TaskContext.tsx:42), so these are the oldest | a store with five tasks, then one more added: the panel is unchanged and the new task is not in it | the five newest tasks, newest first | medium, not executed | Dashboard.RecentTasksMissNewTask | Dashboard.AddedTaskShownFirst |

## Left out

- Asynchrony and timers: the simulated delays are not modelled. Each store operation and each request is one atomic step, so overlapping calls that resolve out of order are not covered.
- The provider's `catch` branches: the awaited timers never reject, so those branches are unreachable. Only the `SET_ERROR` transition they would dispatch is modelled, in `Reduce`.
- Clock readings (`Date.now()` ids, ISO timestamps) are method parameters.
- Persistence: the storage hook behind `TaskManager`'s list is not part of this model. Its constructor takes the stored list.
- TaskManager.TaskManager: the render between a list becoming empty and the seeding effect refilling it is not modelled. Each method shows the state after the effect has run.
- Toasts, dialogs, rendering, auto-login and the fetch effects on the dashboard are not modelled.
- `useTask` outside a provider throws. That guard is not modelled.
- The remote statistics and the network fetch wrapper are not modelled. The statistics are a parameter of `Dashboard.StatCards`.
- Builtins.ToLower: lower-cases ASCII letters only. JavaScript's full Unicode case mapping is not modelled.
- Builtins.RoundedPercent: exact rational rounding. The floating-point `completed / total * 100` could round differently when the quotient is within one rounding error of a half.
- Pagination.Pager.constructor: requires a positive `itemsPerPage`. With 0 the source divides by zero and gets `Infinity` or `NaN` pages, which the model does not represent.
- Pagination: page numbers and item counts are integers. Fractional pages passed to `goToPage` are not modelled.
- ApiHook.Api.Execute: the wrapped request's arguments are not modelled. Its outcome is the parameter.
- A JavaScript value of `null` returned by a request is not distinguished from other values.
