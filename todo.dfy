/** The todo-list state store: the tasks, the filter buttons and the
    display mode, the two views the renderer reads from them, and the
    store object whose methods are the mutators the UI handlers call.
    Task ids are values of an abstract type `Id` compared only for
    equality; the loose `==`/`!=` the handlers use on ids is that
    equality. */
module Todo {
  import opened ArrayOps

  /** One entry of the list. */
  datatype Task<Id> = Task(id: Id, name: string, done: bool)

  /** One filter button: its label, its key and whether it is selected. */
  datatype Filter = Filter(name: string, filter: string, active: bool)

  /** The keys the view gives a meaning to; any other key shows everything. */
  const ALL := "all"
  const ACTIVE := "active"
  const COMPLETED := "completed"

  // Predicates passed to the array operations, as the arrow functions of
  // the source.
  function NotDone<Id>(t: Task<Id>): (b: bool) { !t.done }
  function IsDone<Id>(t: Task<Id>): (b: bool) { t.done }
  function IsActive(f: Filter): (b: bool) { f.active }
  function HasId<Id(==)>(id: Id): (p: Task<Id> -> bool) { (t: Task<Id>) => t.id == id }
  function IdDiffers<Id(==)>(id: Id): (p: Task<Id> -> bool) { (t: Task<Id>) => t.id != id }

  /** Some task in the list carries `id`. */
  predicate Contains<Id(==)>(todo: seq<Task<Id>>, id: Id)
  {
    exists i :: 0 <= i < |todo| && todo[i].id == id
  }

  /** No two tasks share an id. */
  ghost predicate UniqueIds<Id>(todo: seq<Task<Id>>)
  {
    forall i, j :: 0 <= i < j < |todo| ==> todo[i].id != todo[j].id
  }

  /** No two filters share a key. */
  ghost predicate DistinctKeys(filters: seq<Filter>)
  {
    forall i, j :: 0 <= i < j < |filters| ==> filters[i].filter != filters[j].filter
  }

  /** Exactly one filter is selected. */
  ghost predicate ExactlyOneActive(filters: seq<Filter>)
  {
    exists i :: 0 <= i < |filters| && filters[i].active &&
                forall j :: 0 <= j < |filters| && filters[j].active ==> j == i
  }

  // ---------------------------------------------------------------- views

  /** The "items left" label: tasks not done, over the whole list. */
  function NumberOfNotCompleted<Id>(todo: seq<Task<Id>>): (n: nat)
    ensures n == Count(todo, NotDone)
    ensures n <= |todo|
  {
    SelectLength(todo, NotDone);
    |Select(todo, NotDone)|
  }

  /** The tasks to render: those matching the first selected filter, all
      of them when no filter is selected or its key is neither "active"
      nor "completed". */
  function FilterTodo<Id>(filters: seq<Filter>, todo: seq<Task<Id>>): (r: seq<Task<Id>>)
    ensures |r| <= |todo|
    ensures forall i :: 0 <= i < |r| ==> r[i] in todo
  {
    match Find(filters, IsActive)
    case None => todo
    case Some(f) =>
      if f.filter == ACTIVE then Select(todo, NotDone)
      else if f.filter == COMPLETED then Select(todo, IsDone)
      else todo
  }

  // --------------------------------------------- effects of the mutators

  /** The list after a new, not-done task is put in front of it. */
  function WithNewTask<Id>(todo: seq<Task<Id>>, name: string, freshId: Id): (r: seq<Task<Id>>)
    ensures |r| == |todo| + 1
    ensures r[0].id == freshId && r[0].name == name && !r[0].done
    ensures r[1..] == todo
  {
    [Task(freshId, name, false)] + todo
  }

  /** The list after flipping `done` on the first task carrying `id`. */
  function Toggle<Id(==)>(todo: seq<Task<Id>>, id: Id): (r: seq<Task<Id>>)
    requires Contains(todo, id)
    ensures |r| == |todo|
    ensures forall i :: 0 <= i < |r| ==> r[i].id == todo[i].id && r[i].name == todo[i].name
  {
    var k := FindIndex(todo, HasId(id));
    todo[k := todo[k].(done := !todo[k].done)]
  }

  /** The list without the tasks carrying `id`. */
  function WithoutId<Id(==)>(todo: seq<Task<Id>>, id: Id): (r: seq<Task<Id>>)
    ensures forall i :: 0 <= i < |r| ==> r[i].id != id
    ensures !Contains(todo, id) ==> r == todo
  {
    Select(todo, IdDiffers(id))
  }

  /** The list without the completed tasks. */
  function WithoutCompleted<Id>(todo: seq<Task<Id>>): (r: seq<Task<Id>>)
    ensures forall i :: 0 <= i < |r| ==> !r[i].done
    ensures |r| == NumberOfNotCompleted(todo)
  {
    Select(todo, NotDone)
  }

  /** The filters after the button with key `key` is clicked: each one is
      selected exactly when its key is `key`. */
  function WithActiveFilter(filters: seq<Filter>, key: string): (r: seq<Filter>)
    ensures |r| == |filters|
    ensures forall i :: 0 <= i < |r| ==>
              r[i].name == filters[i].name && r[i].filter == filters[i].filter &&
              (r[i].active <==> filters[i].filter == key)
  {
    seq(|filters|, i requires 0 <= i < |filters| => filters[i].(active := filters[i].filter == key))
  }

  // ---------------------------------------------------------- the store

  /** The application state, updated in place by the handlers. */
  class TodoStore<Id(==)> {
    var mode: string
    var filters: seq<Filter>
    var todo: seq<Task<Id>>

    /** The store over a state read back from storage, or the built-in
        default one. */
    constructor (mode: string, filters: seq<Filter>, todo: seq<Task<Id>>)
      ensures this.mode == mode && this.filters == filters && this.todo == todo
    {
      this.mode := mode;
      this.filters := filters;
      this.todo := todo;
    }

    /** Puts a new, not-done task named `name` at the front of the list.
        `freshId` stands for the timestamp-and-random id, which no task
        carries yet. The name is not checked. */
    method AddTodo(name: string, freshId: Id)
      requires !Contains(todo, freshId)
      modifies this
      ensures todo == WithNewTask(old(todo), name, freshId)
      ensures filters == old(filters) && mode == old(mode)
    {
      var newTodo := Task(freshId, name, false);
      todo := [newTodo] + todo;
    }

    /** Flips `done` on the first task carrying `id`; the source indexes
        the list with -1 (and fails) when no task carries it. */
    method ToggleStatus(id: Id)
      requires Contains(todo, id)
      modifies this
      ensures todo == Toggle(old(todo), id)
      ensures filters == old(filters) && mode == old(mode)
    {
      var index := FindIndex(todo, HasId(id));
      todo := todo[index := todo[index].(done := !todo[index].done)];
    }

    /** Drops every task carrying `id`. */
    method RemoveTodo(id: Id)
      modifies this
      ensures todo == WithoutId(old(todo), id)
      ensures filters == old(filters) && mode == old(mode)
    {
      todo := Select(todo, IdDiffers(id));
    }

    /** Drops every completed task. */
    method HandleRemoveCompleted()
      modifies this
      ensures todo == WithoutCompleted(old(todo))
      ensures NumberOfNotCompleted(todo) == old(NumberOfNotCompleted(todo))
      ensures filters == old(filters) && mode == old(mode)
    {
      todo := Select(todo, NotDone);
      SelectIdempotent(old(todo), NotDone);
    }

    /** Selects the filter with key `key` by setting, one filter at a time,
        `active` to whether its key is `key`. */
    method HandleFilters(key: string)
      modifies this
      ensures filters == WithActiveFilter(old(filters), key)
      ensures todo == old(todo) && mode == old(mode)
    {
      var i := 0;
      while i < |filters|
        invariant 0 <= i <= |filters| == |old(filters)|
        invariant forall j :: 0 <= j < i ==>
                    filters[j] == old(filters)[j].(active := old(filters)[j].filter == key)
        invariant forall j :: i <= j < |filters| ==> filters[j] == old(filters)[j]
        invariant todo == old(todo) && mode == old(mode)
      {
        filters := filters[i := filters[i].(active := filters[i].filter == key)];
        i := i + 1;
      }
    }
  }
}
