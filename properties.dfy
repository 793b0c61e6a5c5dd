/** What the client promises over an in-memory source, proved about the
    functions that specify `TodoList`'s methods. */
module Properties {
  import opened Results
  import opened Text
  import opened Sources
  import opened Client

  // ---------------------------------------------------------------------
  // remove_task

  /** The task `remove_task` finds was fetched from the store, so handing it
      to the source's `remove_task` never raises `ValueError`. */
  lemma RemoveNeverValueError(store: seq<string>, title: string, caseSensitive: bool, fail: bool)
    ensures ListRemove(store, title, caseSensitive, fail).out != Err(ValueError)
  {
  }

  /** When some title matches, exactly the first matching entry is deleted
      and the rest keep their order. */
  lemma RemoveMatchedEntry(store: seq<string>, title: string, caseSensitive: bool, fail: bool)
    requires FirstMatch(store, title, caseSensitive).Some?
    ensures var i := FirstMatch(store, title, caseSensitive).value;
            ListRemove(store, title, caseSensitive, fail) == Step(store[..i] + store[i + 1..], Ok(()))
  {
    var i := FirstMatch(store, title, caseSensitive).value;
    forall j | 0 <= j < i
      ensures store[j] != store[i]
    {
      assert !Matches(store[j], title, caseSensitive);
    }
    RemoveFirstAt(store, store[i], i);
  }

  /** When nothing matches, the store is unchanged and the call either
      succeeds silently or, with `fail`, reports the missing task. */
  lemma RemoveMissingTitle(store: seq<string>, title: string, caseSensitive: bool, fail: bool)
    requires forall k :: 0 <= k < |store| ==> !Matches(store[k], title, caseSensitive)
    ensures ListRemove(store, title, caseSensitive, fail).store == store
    ensures ListRemove(store, title, caseSensitive, fail).out == if fail then Err(TaskNotOnList) else Ok(())
  {
  }

  /** On a duplicate-free store, a case-sensitive removal leaves the title
      absent and the store still duplicate-free. */
  lemma RemoveExactFromDistinct(store: seq<string>, title: string, fail: bool)
    requires Distinct(store)
    ensures title !in ListRemove(store, title, true, fail).store
    ensures Distinct(ListRemove(store, title, true, fail).store)
  {
    if FirstMatch(store, title, true).Some? {
      RemoveFirstKeepsDistinct(store, title);
    }
  }

  // ---------------------------------------------------------------------
  // add_task

  /** With duplicates disallowed and a case-insensitive match stored, the
      store is unchanged and the call returns the first such task, or with
      `fail` reports the duplicate. */
  lemma AddExistingTitle(src: LocalSource, store: seq<string>, title: string, fail: bool)
    requires exists k :: 0 <= k < |store| && Lower(store[k]) == Lower(title)
    ensures ListAdd(src, store, title, false, fail).store == store
    ensures fail ==> ListAdd(src, store, title, false, fail).out == Err(TaskAlreadyInTodo)
    ensures !fail ==> var r := ListAdd(src, store, title, false, fail).out;
                      r.Ok? && r.value.source == src && r.value.tags == [] &&
                      r.value.title in store && Lower(r.value.title) == Lower(title)
    ensures !fail ==> FindFirst(Bind(src, store), title, false).Some? &&
                      ListAdd(src, store, title, false, fail).out == Ok(FindFirst(Bind(src, store), title, false).value)
  {
    var k :| 0 <= k < |store| && Lower(store[k]) == Lower(title);
    assert Matches(store[k], title, false);
    assert TitlesOf(Bind(src, store)) == store;
  }

  /** With duplicates allowed, or no case-insensitive match stored, the call
      is the source's own `add_task`. */
  lemma AddNewTitle(src: LocalSource, store: seq<string>, title: string, allowDuplicate: bool, fail: bool)
    requires allowDuplicate || forall k :: 0 <= k < |store| ==> Lower(store[k]) != Lower(title)
    ensures ListAdd(src, store, title, allowDuplicate, fail) == Step(StoreAdd(store, title), Ok(Task(src, title, [])))
  {
    if !allowDuplicate {
      assert FirstMatch(store, title, false).None?;
    }
  }

  /** Adding a title twice with the default flags leaves the store as the
      first call left it and returns the same task both times. */
  lemma AddTwiceIsAddOnce(src: LocalSource, store: seq<string>, title: string)
    ensures var once := ListAdd(src, store, title, false, false);
            ListAdd(src, once.store, title, false, false) == once
  {
    var once := ListAdd(src, store, title, false, false);
    if FirstMatch(store, title, false).None? {
      forall k | 0 <= k < |store|
        ensures store[k] != title
      {
        assert !Matches(store[k], title, false);
      }
      assert once.store == store + [title];
      forall j | 0 <= j < |store|
        ensures !Matches(once.store[j], title, false)
      {
        assert once.store[j] == store[j];
      }
      FirstMatchIs(once.store, title, false, |store|);
    }
  }

  /** No flag combination makes `add_task` store a duplicate. */
  lemma AddKeepsDistinct(src: LocalSource, store: seq<string>, title: string, allowDuplicate: bool, fail: bool)
    requires Distinct(store)
    ensures Distinct(ListAdd(src, store, title, allowDuplicate, fail).store)
  {
    StoreAddKeepsDistinct(store, title);
  }

  /** After a successful `add_task` a task equal to the returned one is a
      member, and its title matches the requested one case-insensitively. */
  lemma AddedIsMember(src: LocalSource, store: seq<string>, title: string, allowDuplicate: bool, fail: bool)
    ensures var s := ListAdd(src, store, title, allowDuplicate, fail);
            s.out.Ok? ==> s.out.value.title in s.store && Lower(s.out.value.title) == Lower(title)
  {
  }

  // ---------------------------------------------------------------------
  // add_tasks and remove_tasks

  /** The side conditions of `AddAllFreshTitles` carry over from `titles`
      and `store` to the rest of the titles and the store with the first
      one appended. */
  lemma FreshTitlesStep(store: seq<string>, titles: seq<string>)
    requires titles != []
    requires forall i, j :: 0 <= i < j < |titles| ==> Lower(titles[i]) != Lower(titles[j])
    requires forall i, k :: 0 <= i < |titles| && 0 <= k < |store| ==> Lower(titles[i]) != Lower(store[k])
    ensures forall k :: 0 <= k < |store| ==> Lower(store[k]) != Lower(titles[0])
    ensures forall i, j :: 0 <= i < j < |titles[1..]| ==> Lower(titles[1..][i]) != Lower(titles[1..][j])
    ensures forall i, k :: 0 <= i < |titles[1..]| && 0 <= k < |store + [titles[0]]| ==>
              Lower(titles[1..][i]) != Lower((store + [titles[0]])[k])
  {
    var next := store + [titles[0]];
    forall i, k | 0 <= i < |titles[1..]| && 0 <= k < |next|
      ensures Lower(titles[1..][i]) != Lower(next[k])
    {
      assert titles[1..][i] == titles[i + 1];
      if k == |store| {
        assert next[k] == titles[0];
      } else {
        assert next[k] == store[k];
      }
    }
  }

  /** A first title matching nothing stored is appended and returned ahead
      of what the remaining titles give. */
  lemma AddAllFreshFirst(src: LocalSource, store: seq<string>, titles: seq<string>)
    requires titles != []
    requires forall k :: 0 <= k < |store| ==> Lower(store[k]) != Lower(titles[0])
    ensures ListAddAll(src, store, titles, false, false)
            == Prepend([Task(src, titles[0], [])], ListAddAll(src, store + [titles[0]], titles[1..], false, false))
  {
    AddNewTitle(src, store, titles[0], false, false);
    assert titles[0] !in store by {
      forall k | 0 <= k < |store|
        ensures store[k] != titles[0]
      {
      }
    }
  }

  /** Appending the first title, then the rest, appends them all. */
  lemma PrependFirstTask(src: LocalSource, store: seq<string>, titles: seq<string>)
    requires titles != []
    ensures Prepend([Task(src, titles[0], [])], Step(store + [titles[0]] + titles[1..], Ok(Bind(src, titles[1..]))))
            == Step(store + titles, Ok(Bind(src, titles)))
  {
    assert store + [titles[0]] + titles[1..] == store + titles;
    BindCons(src, titles);
  }

  /** Titles pairwise different after lower-casing, none of them matching a
      stored title, are appended in order, and the returned tasks carry
      exactly those titles. */
  lemma {:induction false} AddAllFreshTitles(src: LocalSource, store: seq<string>, titles: seq<string>)
    requires forall i, j :: 0 <= i < j < |titles| ==> Lower(titles[i]) != Lower(titles[j])
    requires forall i, k :: 0 <= i < |titles| && 0 <= k < |store| ==> Lower(titles[i]) != Lower(store[k])
    ensures ListAddAll(src, store, titles, false, false) == Step(store + titles, Ok(Bind(src, titles)))
    decreases |titles|
  {
    if titles == [] {
      assert store + titles == store;
    } else {
      var next := store + [titles[0]];
      FreshTitlesStep(store, titles);
      AddAllFreshFirst(src, store, titles);
      AddAllFreshTitles(src, next, titles[1..]);
      PrependFirstTask(src, store, titles);
    }
  }

  /** Without `fail`, `add_tasks` never raises and returns one task per
      title, in order, each matching its title case-insensitively. */
  lemma {:induction false} AddAllWithoutFail(src: LocalSource, store: seq<string>, titles: seq<string>, allowDuplicate: bool)
    ensures var s := ListAddAll(src, store, titles, allowDuplicate, false);
            s.out.Ok? && |s.out.value| == |titles| &&
            forall k :: 0 <= k < |titles| ==> Lower(s.out.value[k].title) == Lower(titles[k])
    decreases |titles|
  {
    if titles != [] {
      var first := ListAdd(src, store, titles[0], allowDuplicate, false);
      AddAllWithoutFail(src, first.store, titles[1..], allowDuplicate);
      var rest := ListAddAll(src, first.store, titles[1..], allowDuplicate, false);
      var all := [first.out.value] + rest.out.value;
      forall k | 0 <= k < |titles|
        ensures Lower(all[k].title) == Lower(titles[k])
      {
        if k > 0 {
          assert all[k] == rest.out.value[k - 1] && titles[k] == titles[1..][k - 1];
        }
      }
    }
  }

  /** Removing by titles only, without `fail`, never raises. */
  lemma {:induction false} RemoveAllTitlesWithoutFail<S>(store: seq<string>, items: seq<Item<S>>, caseSensitive: bool)
    requires forall k :: 0 <= k < |items| ==> items[k].Title?
    ensures ListRemoveAll(store, items, caseSensitive, false).out == Ok(())
    decreases |items|
  {
    if items != [] {
      var first := ListRemove(store, items[0].text, caseSensitive, false);
      RemoveNeverValueError(store, items[0].text, caseSensitive, false);
      RemoveAllTitlesWithoutFail(first.store, items[1..], caseSensitive);
    }
  }

  /** A task item is removed by title through its source, so listing the
      same task twice raises `ValueError` on the second, even without `fail`. */
  lemma RemoveSameTaskTwice<S>(t: Task<S>, caseSensitive: bool, fail: bool)
    ensures ListRemoveAll([t.title], [TaskItem(t), TaskItem(t)], caseSensitive, fail) == Step([], Err(ValueError))
  {
    assert [TaskItem(t), TaskItem(t)][1..] == [TaskItem(t)];
  }

  // ---------------------------------------------------------------------
  // membership

  /** Every fetched task is a member of the list it came from. */
  lemma FetchedAreMembers(todo: TodoList)
    ensures forall i :: 0 <= i < |todo.GetTasks()| ==> todo.Contains(TaskItem(todo.GetTasks()[i]))
  {
    forall i | 0 <= i < |todo.GetTasks()|
      ensures todo.Contains(TaskItem(todo.GetTasks()[i]))
    {
      assert TaskItem(todo.GetTasks()[i]).Name() == todo.source.tasks[i];
    }
  }

  // ---------------------------------------------------------------------
  // A session

  /** Over `LocalSource(["a", "b"])`: two tasks; `add_task("c")` makes three;
      `remove_task("a")` then leaves `["b", "c"]`. */
  method Scenario() returns (before: nat, afterAdd: nat, titles: seq<string>)
    ensures before == 2 && afterAdd == 3 && titles == ["b", "c"]
  {
    var src := new LocalSource(["a", "b"]);
    var todo := new TodoList(src);
    before := todo.Length();
    assert Lower("c") == "c" && Lower("a") == "a" && Lower("b") == "b";
    var added := todo.AddTask("c", false, false);
    assert src.tasks == ["a", "b", "c"];
    afterAdd := todo.Length();
    var removed := todo.RemoveTask("a", false, false);
    assert FirstMatch(["a", "b", "c"], "a", false) == Some(0);
    titles := TitlesOf(todo.GetTasks());
  }
}
