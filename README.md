# Todo list state store

A Dafny model of the state store of a small browser todo-list app
(`js/app.js`). The page keeps one mutable state object with three parts:

- `todo`: an ordered list of tasks `{id, name, done}`, newest first;
- `filters`: the three filter buttons `{name, filter, active}` ("All",
  "Active", "Completed");
- `mode`: a display-mode string.

UI handlers change that object in place through five mutators: add a
task, toggle a task's `done` flag, remove a task, clear the completed
tasks, and select a filter. The renderer reads two views from it: the
"items left" count and the list of tasks to show under the selected
filter.

The model has four modules:

- `ArrayOps` (`array_ops.dfy`): the JavaScript array operations the store
  is built from. `Select` is `filter`, `FindIndex` is `findIndex` and
  `Find` is `find`. Beside them are a reference `Count` and an
  order-preserving `IsSubsequence` relation, and lemmas tying these
  together.
- `Todo` (`todo.dfy`): the `Task` and `Filter` datatypes and the two views,
  `NumberOfNotCompleted` and `FilterTodo`. It also holds one function per
  mutator giving the new list or filters (`WithNewTask`, `Toggle`,
  `WithoutId`, `WithoutCompleted`, `WithActiveFilter`), and the class
  `TodoStore`. The class has the three state fields and one method per
  mutator. Each method is specified by the matching function of its old
  state. `HandleFilters` keeps the source's loop over the filters, with
  its invariants.
- `TodoProperties` (`todo_properties.dfy`): what the mutators and views
  guarantee. Toggling twice is the identity. Removing a task just added
  restores the list. Removal and clearing keep the order of the remaining
  tasks. Every task is either counted as left or shown as completed.
  After a filter is selected, the view shows that key's tasks. With
  distinct keys, exactly one filter is then active.
- `InitialState` (`initial_state.dfy`): the built-in default state, the
  facts the app's sample data is meant to show, and a session run through
  the store's methods.

Task ids are a type parameter `Id` that only supports equality. The source
compares ids with loose `==`/`!=`. The ids of added tasks are numbers, while
ids read back from the page are strings, and loose equality makes the two
forms of one id equal. Equality of `Id` stands for that comparison. Filter
keys are plain strings, as in the stored state. A key other than "active"
or "completed" shows every task.

The model follows the code where it may surprise a reader:

- Adding a task does not reject an empty name.
- Toggling an id that no task carries does not do nothing: `findIndex`
  gives -1 and the assignment to `state.todo[-1].done` throws. The model
  states this as a precondition of `ToggleStatus`.
- Selecting a key that no filter has leaves no filter active, rather than
  keeping exactly one active (`SelectAbsent`).

## Model

| member | source | states |
|---|---|---|
| `ArrayOps.Select` | js/app.js:92 | `Array.prototype.filter`: every element kept is in the input and satisfies the predicate; every input element that satisfies it is kept; the result is no longer than the input, and equals it exactly when every element passes |
| `ArrayOps.FindIndex` | js/app.js:84 | `findIndex`: -1 exactly when no element matches; otherwise the index of a matching element with no match before it |
| `ArrayOps.Find` | js/app.js:104 | `find`: nothing exactly when no element matches; otherwise the first matching element |
| `ArrayOps.SelectLength` | js/app.js:98-99 | the length of a filtered list equals the number of matching elements, counted independently from the back |
| `ArrayOps.SelectIsSubsequence` | js/app.js:92 | a filtered list is an order-preserving subsequence of the input |
| `ArrayOps.SelectIdempotent` | js/app.js:211 | filtering a second time with the same predicate changes nothing |
| `Todo.NumberOfNotCompleted` | js/app.js:98-99 | the "items left" number is the count of not-done tasks in the whole list, at most its length; it depends on the tasks only, never on the filters |
| `Todo.FilterTodo` | js/app.js:101-117 | the shown tasks are drawn from the task list and are never more than it |
| `Todo.WithNewTask` | js/app.js:71-78 | the list grows by one; its first task carries the fresh id and the given name and is not done; the rest is the old list exactly |
| `Todo.Toggle` | js/app.js:83-88 | toggling keeps the length and the id and name of every task |
| `Todo.WithoutId` | js/app.js:91-95 | no remaining task carries the id; when no task carried it, the list is unchanged |
| `Todo.WithoutCompleted` | js/app.js:210-214 | no remaining task is done, and as many remain as were left |
| `Todo.WithActiveFilter` | js/app.js:217-226 | same number of filters, same names and keys in the same order, and each is active exactly when its key is the clicked one |
| `Todo.TodoStore.constructor` | js/app.js:52 | the store holds the given state (read back from storage, or the default) |
| `Todo.TodoStore.AddTodo` | js/app.js:71-79 | given the id is fresh, the new list is `WithNewTask` of the old one; filters and mode are unchanged |
| `Todo.TodoStore.ToggleStatus` | js/app.js:83-88 | given a task carries the id, the new list is `Toggle` of the old one; filters and mode are unchanged |
| `Todo.TodoStore.RemoveTodo` | js/app.js:91-95 | the new list is the old one without the tasks carrying the id; filters and mode are unchanged |
| `Todo.TodoStore.HandleRemoveCompleted` | js/app.js:210-214 | the new list is the old one without its completed tasks; the items-left number is unchanged; filters and mode are unchanged |
| `Todo.TodoStore.HandleFilters` | js/app.js:217-226 | the loop over the filters leaves exactly `WithActiveFilter` of the old filters; tasks and mode are unchanged |
| `TodoProperties.AddThenRemove` | js/app.js:71-95 | removing the task just added, by its fresh id, restores the old list exactly |
| `TodoProperties.AddKeepsUniqueIds` | js/app.js:71-79 | adding with a fresh id keeps all ids distinct |
| `TodoProperties.ToggleChangesOnlyFirstMatch` | js/app.js:84-85 | the toggled index carries the id and no earlier task does; its `done` is negated; every other task is unchanged |
| `TodoProperties.ToggleUnique` | js/app.js:83-88 | with distinct ids, toggling keeps them distinct and changes `done` of exactly the task carrying the id |
| `TodoProperties.ToggleTwice` | js/app.js:83-88 | toggling the same id twice gives back the original list |
| `TodoProperties.RemoveKeepsOthers` | js/app.js:91-95 | removal yields an order-preserving subsequence that keeps every task with another id and no task carrying the id, and its length is the number of tasks with another id, which together fix the result exactly |
| `TodoProperties.RemoveUnique` | js/app.js:91-95 | with distinct ids, removal cuts out exactly the one task carrying the id, around which the list is unchanged |
| `TodoProperties.SelectKeepsUniqueIds` | js/app.js:92 | filtering a list with distinct ids keeps them distinct (so do removing and clearing) |
| `TodoProperties.RemoveCompletedEffect` | js/app.js:210-214 | clearing leaves an order-preserving subsequence holding every not-done task, with the same items-left number, and clearing again changes nothing |
| `TodoProperties.Partition` | js/app.js:98-112 | the items-left number plus the number of completed tasks is the length of the list |
| `TodoProperties.FilterTodoIsSubsequence` | js/app.js:101-117 | whatever filter is selected, the shown tasks are an order-preserving subsequence of the list |
| `TodoProperties.FilterTodoActive` | js/app.js:107-109 | with "active" first selected, exactly the not-done tasks are shown, as many as the items-left number |
| `TodoProperties.FilterTodoCompleted` | js/app.js:111-113 | with "completed" first selected, exactly the done tasks are shown, as many as the length minus the items-left number |
| `TodoProperties.FilterTodoAll` | js/app.js:102-106 | with no filter selected, or a first selected key other than "active" and "completed", the whole list is shown unchanged |
| `TodoProperties.ViewAfterSelect` | js/app.js:217-226 | after a click on a key some filter has, the first active filter has that key and the view shows that key's tasks |
| `TodoProperties.SelectExclusive` | js/app.js:220-222 | with distinct keys and the clicked key among them, the keys stay distinct and exactly one filter is active afterwards |
| `TodoProperties.SelectAbsent` | js/app.js:220-222 | a clicked key no filter has leaves every filter inactive, and the view then shows every task |
| `InitialState.InitialFilters` | js/app.js:6-22 | three filters with keys "all", "active" and "completed", in that order, of which only the first is selected |
| `InitialState.InitialTodo` | js/app.js:23-49 | five tasks, the first four done and the last, "Clear Completed task", still to do |
| `InitialState.InitialFiltersFacts` | js/app.js:6-22 | the default filters have distinct keys, exactly one is active, the first active is "All", and it shows every task |
| `InitialState.InitialNotDone` | js/app.js:23-49 | of the five default tasks only "Clear Completed task" is not done |
| `InitialState.InitialUniqueIds` | js/app.js:23-49 | the default tasks have distinct ids |
| `InitialState.InitialCounts` | js/app.js:23-49 | on the default tasks one item is left, four are completed, and clearing leaves only "Clear Completed task" |
| `InitialState.InitialViews` | js/app.js:4-50 | on the default state, selecting "completed" shows four tasks and selecting "active" shows only "Clear Completed task" |
| `InitialState.SixIsFresh` | js/app.js:23-49 | no default task carries the id "6", so it can serve as the fresh id of an added task |
| `InitialState.AddThenClear` | js/app.js:71-214 | on the default tasks, clearing after adding "Buy milk" under id "6" leaves "Buy milk" followed by "Clear Completed task" |
| `InitialState.DefaultSession` | js/app.js:71-226 | on the default state, adding "Buy milk" gives six tasks with the new one first; clearing completed tasks then leaves "Buy milk" and "Clear Completed task"; selecting "active" then shows exactly those two |

## Left out

- Loading the state with `JSON.parse(localStorage.getItem('todo'))` and saving it with `JSON.stringify` after every mutation (js/app.js:52, 64-67). This is browser storage and JSON. The store's constructor takes the state that was loaded. The source does not guard `JSON.parse`, so corrupt storage throws instead of falling back to the default.
- Id generation with `Date.now() + Math.random()` (js/app.js:73) uses the clock and floating point. `AddTodo` takes the resulting id as a parameter instead.
- Todo.TodoStore.AddTodo: requires the injected id to be fresh. This is what the timestamp-and-random id is relied on for; the source itself does not check it.
- Todo.TodoStore.ToggleStatus: requires some task to carry the id. For an absent id the source throws on `state.todo[-1]`; the model does not represent that exception.
- Rendering (`render`, `renderTodoItems`, `renderFilters`, `clearUi`, js/app.js:120-177) builds HTML strings and writes the DOM. Only the two views it reads, `FilterTodo` and `NumberOfNotCompleted`, are modelled.
- Event handlers resolve ids and keys from DOM targets (`split('-')`, `closest('button')`, `dataset`, `tagName`, js/app.js:184-207, 218-219). The model starts from an id or key that has already been resolved. Whether a string id from the page loosely equals a numeric id is folded into equality on `Id`.
- The theme toggle `handleToggleMode` and the `addEventListener` wiring (js/app.js:181, 228-243) are UI only. The `mode` field is carried along, and no mutator changes it.
