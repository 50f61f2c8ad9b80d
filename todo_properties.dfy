/** What the mutators and views of the todo store guarantee, stated over
    the functions the store's methods are specified by. */
module TodoProperties {
  import opened ArrayOps
  import opened Todo

  // ------------------------------------------------------------- adding

  /** Removing the task just added, by its id, gives back the old list. */
  lemma {:induction false} AddThenRemove<Id>(todo: seq<Task<Id>>, name: string, freshId: Id)
    requires !Contains(todo, freshId)
    ensures WithoutId(WithNewTask(todo, name, freshId), freshId) == todo
  {
    var added := WithNewTask(todo, name, freshId);
    assert added == [added[0]] + todo;
    SelectAppend([added[0]], todo, IdDiffers(freshId));
    assert [added[0]][1..] == [];
  }

  /** Adding with a fresh id keeps the ids unique. */
  lemma AddKeepsUniqueIds<Id>(todo: seq<Task<Id>>, name: string, freshId: Id)
    requires UniqueIds(todo) && !Contains(todo, freshId)
    ensures UniqueIds(WithNewTask(todo, name, freshId))
  {
  }

  // ----------------------------------------------------------- toggling

  /** Toggling flips `done` of the first task carrying `id` and leaves
      every other task as it was. */
  lemma ToggleChangesOnlyFirstMatch<Id>(todo: seq<Task<Id>>, id: Id)
    requires Contains(todo, id)
    ensures var r, k := Toggle(todo, id), FindIndex(todo, HasId(id));
            0 <= k < |todo| && todo[k].id == id &&
            (forall i :: 0 <= i < k ==> todo[i].id != id) &&
            r[k].done == !todo[k].done &&
            (forall i :: 0 <= i < |todo| && i != k ==> r[i] == todo[i])
  {
    var k := FindIndex(todo, HasId(id));
    assert HasId(id)(todo[k]);
    forall i | 0 <= i < k ensures todo[i].id != id {
      assert !HasId(id)(todo[i]);
    }
  }

  /** With unique ids, toggling changes the `done` flag of exactly the
      task carrying `id`. */
  lemma ToggleUnique<Id>(todo: seq<Task<Id>>, id: Id)
    requires Contains(todo, id) && UniqueIds(todo)
    ensures var r := Toggle(todo, id);
            UniqueIds(r) &&
            forall i :: 0 <= i < |todo| ==> (r[i].done != todo[i].done <==> todo[i].id == id)
  {
    ToggleChangesOnlyFirstMatch(todo, id);
  }

  /** Toggling the same id twice restores the list. */
  lemma {:induction false} ToggleTwice<Id>(todo: seq<Task<Id>>, id: Id)
    requires Contains(todo, id)
    ensures Contains(Toggle(todo, id), id)
    ensures Toggle(Toggle(todo, id), id) == todo
  {
    var once := Toggle(todo, id);
    forall i | 0 <= i < |todo| ensures HasId(id)(todo[i]) == HasId(id)(once[i]) {
    }
    FindIndexCongruent(todo, once, HasId(id));
    var k := FindIndex(todo, HasId(id));
    assert HasId(id)(todo[k]);
    assert once[k].id == id;
  }

  // ----------------------------------------------------------- removing

  /** Removal keeps every other task, in order, drops every task carrying
      `id`, and keeps as many tasks as carry another id; together these
      fix the result exactly. */
  lemma RemoveKeepsOthers<Id>(todo: seq<Task<Id>>, id: Id)
    ensures IsSubsequence(WithoutId(todo, id), todo)
    ensures forall i :: 0 <= i < |WithoutId(todo, id)| ==> WithoutId(todo, id)[i].id != id
    ensures forall i :: 0 <= i < |todo| && todo[i].id != id ==> todo[i] in WithoutId(todo, id)
    ensures |WithoutId(todo, id)| == Count(todo, IdDiffers(id))
  {
    SelectIsSubsequence(todo, IdDiffers(id));
    SelectLength(todo, IdDiffers(id));
    forall i | 0 <= i < |todo| && todo[i].id != id ensures todo[i] in WithoutId(todo, id) {
      assert IdDiffers(id)(todo[i]);
    }
  }

  /** With unique ids, removal cuts out exactly the one task carrying `id`. */
  lemma {:induction false} RemoveUnique<Id>(todo: seq<Task<Id>>, id: Id, k: nat)
    requires UniqueIds(todo) && k < |todo| && todo[k].id == id
    ensures WithoutId(todo, id) == todo[..k] + todo[k + 1..]
  {
    var before, after := todo[..k], todo[k + 1..];
    var p := IdDiffers(id);
    assert todo == (before + [todo[k]]) + after;
    SelectAppend(before + [todo[k]], after, p);
    SelectAppend(before, [todo[k]], p);
    AbsentBefore(todo, id, k);
    AbsentAfter(todo, id, k);
    assert Select([todo[k]], p) == [] by {
      assert !p(todo[k]);
      assert [todo[k]][1..] == [];
    }
  }

  lemma AbsentBefore<Id>(todo: seq<Task<Id>>, id: Id, k: nat)
    requires UniqueIds(todo) && k < |todo| && todo[k].id == id
    ensures WithoutId(todo[..k], id) == todo[..k]
  {
    var before := todo[..k];
    forall i | 0 <= i < |before| ensures before[i].id != id {
      assert before[i] == todo[i];
    }
  }

  lemma AbsentAfter<Id>(todo: seq<Task<Id>>, id: Id, k: nat)
    requires UniqueIds(todo) && k < |todo| && todo[k].id == id
    ensures WithoutId(todo[k + 1..], id) == todo[k + 1..]
  {
    var after := todo[k + 1..];
    forall i | 0 <= i < |after| ensures after[i].id != id {
      assert after[i] == todo[k + 1 + i];
    }
  }

  /** Filtering a list with unique ids keeps the ids unique. */
  lemma {:induction false} SelectKeepsUniqueIds<Id>(todo: seq<Task<Id>>, p: Task<Id> -> bool)
    requires UniqueIds(todo)
    ensures UniqueIds(Select(todo, p))
  {
    if todo != [] {
      var rest := Select(todo[1..], p);
      SelectKeepsUniqueIds(todo[1..], p);
      if p(todo[0]) {
        forall j | 0 <= j < |rest| ensures rest[j].id != todo[0].id {
          var m :| 0 <= m < |todo[1..]| && todo[1..][m] == rest[j];
          assert todo[1 + m] == rest[j];
        }
        PrependKeepsUniqueIds(todo[0], rest);
      }
    }
  }

  lemma PrependKeepsUniqueIds<Id>(t: Task<Id>, rest: seq<Task<Id>>)
    requires UniqueIds(rest)
    requires forall j :: 0 <= j < |rest| ==> rest[j].id != t.id
    ensures UniqueIds([t] + rest)
  {
    var r := [t] + rest;
    forall i, j | 0 <= i < j < |r| ensures r[i].id != r[j].id {
      assert r[j] == rest[j - 1];
      if 0 < i {
        assert r[i] == rest[i - 1];
      }
    }
  }

  // ------------------------------------------------- clearing completed

  /** Clearing completed tasks leaves exactly the not-done tasks, in order,
      and does not change the number of items left. */
  lemma RemoveCompletedEffect<Id>(todo: seq<Task<Id>>)
    ensures var r := WithoutCompleted(todo);
            IsSubsequence(r, todo) &&
            (forall i :: 0 <= i < |todo| && !todo[i].done ==> todo[i] in r) &&
            NumberOfNotCompleted(r) == NumberOfNotCompleted(todo) &&
            WithoutCompleted(r) == r
  {
    SelectIsSubsequence(todo, NotDone);
    SelectIdempotent(todo, NotDone);
    forall i | 0 <= i < |todo| && !todo[i].done ensures todo[i] in WithoutCompleted(todo) {
      assert NotDone(todo[i]);
    }
  }

  // -------------------------------------------------------------- views

  /** Every task is either counted as left or shown as completed. */
  lemma {:induction false} Partition<Id>(todo: seq<Task<Id>>)
    ensures NumberOfNotCompleted(todo) + |Select(todo, IsDone)| == |todo|
  {
    if todo != [] {
      Partition(todo[1..]);
    }
  }

  /** Whatever is selected, the view is an order-preserving sublist. */
  lemma FilterTodoIsSubsequence<Id>(filters: seq<Filter>, todo: seq<Task<Id>>)
    ensures IsSubsequence(FilterTodo(filters, todo), todo)
  {
    SelectIsSubsequence(todo, NotDone);
    SelectIsSubsequence(todo, IsDone);
    IsSubsequenceReflexive(todo);
  }

  /** With "active" selected the view is the not-done tasks: all of them,
      and as many as the items-left count. */
  lemma FilterTodoActive<Id>(filters: seq<Filter>, todo: seq<Task<Id>>)
    requires Find(filters, IsActive).Some? && Find(filters, IsActive).value.filter == ACTIVE
    ensures var r := FilterTodo(filters, todo);
            (forall i :: 0 <= i < |r| ==> !r[i].done) &&
            (forall i :: 0 <= i < |todo| && !todo[i].done ==> todo[i] in r) &&
            |r| == NumberOfNotCompleted(todo)
  {
    forall i | 0 <= i < |todo| && !todo[i].done ensures todo[i] in FilterTodo(filters, todo) {
      assert NotDone(todo[i]);
    }
    var r := FilterTodo(filters, todo);
    forall i | 0 <= i < |r| ensures !r[i].done {
      assert NotDone(r[i]);
    }
  }

  /** With "completed" selected the view is the done tasks: all of them,
      and as many as are not left. */
  lemma FilterTodoCompleted<Id>(filters: seq<Filter>, todo: seq<Task<Id>>)
    requires Find(filters, IsActive).Some? && Find(filters, IsActive).value.filter == COMPLETED
    ensures var r := FilterTodo(filters, todo);
            (forall i :: 0 <= i < |r| ==> r[i].done) &&
            (forall i :: 0 <= i < |todo| && todo[i].done ==> todo[i] in r) &&
            |r| == |todo| - NumberOfNotCompleted(todo)
  {
    Partition(todo);
    forall i | 0 <= i < |todo| && todo[i].done ensures todo[i] in FilterTodo(filters, todo) {
      assert IsDone(todo[i]);
    }
    var r := FilterTodo(filters, todo);
    forall i | 0 <= i < |r| ensures r[i].done {
      assert IsDone(r[i]);
    }
  }

  /** With "all", another key, or nothing selected, every task is shown. */
  lemma FilterTodoAll<Id>(filters: seq<Filter>, todo: seq<Task<Id>>)
    requires Find(filters, IsActive).None? ||
             Find(filters, IsActive).value.filter !in {ACTIVE, COMPLETED}
    ensures FilterTodo(filters, todo) == todo
  {
  }

  // --------------------------------------------------- selecting a filter

  /** After a click on key `key`, the view shows that key's tasks: the
      first selected filter is one whose key is `key`. */
  lemma {:induction false} ViewAfterSelect<Id>(filters: seq<Filter>, key: string, todo: seq<Task<Id>>)
    requires exists i :: 0 <= i < |filters| && filters[i].filter == key
    ensures var selected := WithActiveFilter(filters, key);
            Find(selected, IsActive).Some? && Find(selected, IsActive).value.filter == key &&
            FilterTodo(selected, todo) ==
              if key == ACTIVE then Select(todo, NotDone)
              else if key == COMPLETED then Select(todo, IsDone)
              else todo
  {
    var selected := WithActiveFilter(filters, key);
    var i :| 0 <= i < |filters| && filters[i].filter == key;
    assert IsActive(selected[i]);
    var f := Find(selected, IsActive);
    var k :| 0 <= k < |selected| && selected[k] == f.value && IsActive(selected[k]);
    assert selected[k].filter == key;
  }

  /** With distinct keys and `key` among them, exactly one filter is
      selected afterwards, and it is the one with key `key`. */
  lemma {:induction false} SelectExclusive(filters: seq<Filter>, key: string)
    requires DistinctKeys(filters)
    requires exists i :: 0 <= i < |filters| && filters[i].filter == key
    ensures var selected := WithActiveFilter(filters, key);
            DistinctKeys(selected) && ExactlyOneActive(selected)
  {
    var selected := WithActiveFilter(filters, key);
    var i :| 0 <= i < |filters| && filters[i].filter == key;
    assert selected[i].active;
  }

  /** A key no filter has leaves every filter unselected, and then every
      task is shown. */
  lemma SelectAbsent<Id>(filters: seq<Filter>, key: string, todo: seq<Task<Id>>)
    requires forall i :: 0 <= i < |filters| ==> filters[i].filter != key
    ensures var selected := WithActiveFilter(filters, key);
            (forall i :: 0 <= i < |selected| ==> !selected[i].active) &&
            FilterTodo(selected, todo) == todo
  {
    var selected := WithActiveFilter(filters, key);
    forall i | 0 <= i < |selected| ensures !IsActive(selected[i]) {
    }
  }
}
