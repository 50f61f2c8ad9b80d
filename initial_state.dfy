/** The built-in state the page starts from when nothing is stored: the
    three filter buttons with "All" selected, and five sample tasks of
    which only the last is still to do. Ids are the strings "1" to "5". */
module InitialState {
  import opened ArrayOps
  import opened Todo
  import opened TodoProperties

  const INITIAL_MODE := ""

  /** Three filters with distinct keys, of which only the first, "all",
      is selected. */
  function InitialFilters(): (r: seq<Filter>)
    ensures |r| == 3 && r[0].filter == ALL && r[1].filter == ACTIVE && r[2].filter == COMPLETED
    ensures forall i :: 0 <= i < |r| ==> (r[i].active <==> i == 0)
  {
    [ Filter("All", ALL, true),
      Filter("Active", ACTIVE, false),
      Filter("Completed", COMPLETED, false) ]
  }

  /** Five tasks: the first four done, the last one still to do. */
  function InitialTodo(): (r: seq<Task<string>>)
    ensures |r| == 5
    ensures forall i :: 0 <= i < |r| ==> (r[i].done <==> i < 4)
    ensures r[4] == LastTask()
  {
    [ Task("1", "Complete online JavaScript course", true),
      Task("2", "Jog around the park 3x", true),
      Task("3", "10 minutes meditation", true),
      Task("4", "Read for 1 hour", true),
      Task("5", "Clear Completed task", false) ]
  }

  /** The one task of the default list that is still to do. */
  function LastTask(): (t: Task<string>) { Task("5", "Clear Completed task", false) }

  /** The three keys are different strings. */
  lemma KeysDiffer()
    ensures ALL != ACTIVE && ALL != COMPLETED && ACTIVE != COMPLETED
  {
    assert ALL[1] != ACTIVE[1] && ALL[1] != COMPLETED[1];
    assert |ACTIVE| != |COMPLETED|;
  }

  /** The default filters have distinct keys and exactly one of them,
      "All", is selected, so every task is shown. */
  lemma InitialFiltersFacts()
    ensures DistinctKeys(InitialFilters()) && ExactlyOneActive(InitialFilters())
    ensures Find(InitialFilters(), IsActive) == Some(Filter("All", ALL, true))
    ensures forall todo: seq<Task<string>> :: FilterTodo(InitialFilters(), todo) == todo
  {
    KeysDiffer();
    var fs := InitialFilters();
    assert |fs| == 3 && fs[0].active && !fs[1].active && !fs[2].active;
    forall j | 0 <= j < |fs| && fs[j].active ensures j == 0 {
    }
    assert IsActive(fs[0]);
  }

  /** Of the default tasks only the last is still to do. */
  lemma InitialNotDone()
    ensures Select(InitialTodo(), NotDone) == [LastTask()]
  {
    var t := InitialTodo();
    assert t[4..][1..] == [];
    assert Select(t[4..], NotDone) == [LastTask()];
    assert t[3..][1..] == t[4..];
    assert t[2..][1..] == t[3..];
    assert t[1..][1..] == t[2..];
  }

  /** The default tasks have distinct ids. */
  lemma InitialUniqueIds()
    ensures UniqueIds(InitialTodo())
  {
    var t := InitialTodo();
    assert |t| == 5 && t[0].id == "1" && t[1].id == "2" && t[2].id == "3" && t[3].id == "4" && t[4].id == "5";
  }

  /** On the default tasks one item is left, and clearing the completed
      tasks leaves only the "Clear Completed task". */
  lemma InitialCounts()
    ensures NumberOfNotCompleted(InitialTodo()) == 1
    ensures |Select(InitialTodo(), IsDone)| == 4
    ensures WithoutCompleted(InitialTodo()) == [LastTask()]
  {
    InitialNotDone();
    Partition(InitialTodo());
  }

  /** Selecting "completed" on the default state shows four tasks, and
      selecting "active" shows only the "Clear Completed task". */
  lemma InitialViews()
    ensures |FilterTodo(WithActiveFilter(InitialFilters(), COMPLETED), InitialTodo())| == 4
    ensures FilterTodo(WithActiveFilter(InitialFilters(), ACTIVE), InitialTodo()) == [LastTask()]
  {
    InitialCounts();
    KeysDiffer();
    var fs := InitialFilters();
    assert fs[1].filter == ACTIVE && fs[2].filter == COMPLETED;
    ViewAfterSelect(fs, COMPLETED, InitialTodo());
    ViewAfterSelect(fs, ACTIVE, InitialTodo());
  }

  /** No default task carries the id "6". */
  lemma SixIsFresh()
    ensures !Contains(InitialTodo(), "6")
  {
    var t := InitialTodo();
    assert t[0].id == "1" && t[1].id == "2" && t[2].id == "3" && t[3].id == "4" && t[4].id == "5";
  }

  /** Clearing the completed tasks after adding "Buy milk" under id "6"
      keeps the new task and the "Clear Completed task". */
  lemma AddThenClear()
    ensures WithoutCompleted(WithNewTask(InitialTodo(), "Buy milk", "6")) ==
            [Task("6", "Buy milk", false), LastTask()]
  {
    var added := WithNewTask(InitialTodo(), "Buy milk", "6");
    assert added[0] == Task("6", "Buy milk", false);
    assert added[1..] == InitialTodo();
    InitialNotDone();
  }

  /** A session on the default state: add "Buy milk" under the fresh id
      "6", clear the completed tasks, then select "active". */
  method DefaultSession() returns (afterAdd: seq<Task<string>>, afterClear: seq<Task<string>>,
                                   shown: seq<Task<string>>)
    ensures |afterAdd| == 6 && afterAdd[0] == Task("6", "Buy milk", false)
    ensures afterAdd[1..] == InitialTodo()
    ensures afterClear == [Task("6", "Buy milk", false), LastTask()]
    ensures shown == afterClear
  {
    var store := new TodoStore(INITIAL_MODE, InitialFilters(), InitialTodo());
    SixIsFresh();
    AddThenClear();
    store.AddTodo("Buy milk", "6");
    afterAdd := store.todo;
    store.HandleRemoveCompleted();
    afterClear := store.todo;
    store.HandleFilters(ACTIVE);
    shown := FilterTodo(store.filters, store.todo);
    ViewAfterSelect(InitialFilters(), ACTIVE, afterClear);
    SelectIdempotent(afterAdd, NotDone);
  }
}
