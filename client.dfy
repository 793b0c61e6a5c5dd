/** The to-do list client (todo/client.py): a façade whose every query goes
    through its source's `fetch`, with the duplicate and not-found policy of
    `add_task` and `remove_task`.

    The façade is modelled over the in-memory `LocalSource`. Its lookups are
    stated for any sequence of fetched tasks, and every state-changing method
    is tied to a function on the stored title list (`ListAdd`, `ListRemove`,
    `ListAddAll`, `ListRemoveAll`), about which the lemmas below speak. */
module Client {
  import opened Results
  import opened Text
  import opened Sources

  /** The test `find_task_by_title` applies to each candidate title. */
  predicate Matches(candidate: string, query: string, caseSensitive: bool)
  {
    candidate == query || (!caseSensitive && Lower(candidate) == Lower(query))
  }

  /** Without case sensitivity, a title matches exactly when the lower-cased
      strings agree; with it, exactly when the strings agree. */
  lemma MatchesMeaning(candidate: string, query: string)
    ensures Matches(candidate, query, true) <==> candidate == query
    ensures Matches(candidate, query, false) <==> Lower(candidate) == Lower(query)
  {
  }

  /** The first index at or after `from` whose title matches, if any. */
  function FirstMatchFrom(titles: seq<string>, query: string, caseSensitive: bool, from: nat): (r: Option<nat>)
    requires from <= |titles|
    ensures r.Some? ==> from <= r.value < |titles| && Matches(titles[r.value], query, caseSensitive)
    ensures r.Some? ==> forall j :: from <= j < r.value ==> !Matches(titles[j], query, caseSensitive)
    ensures r.None? ==> forall j :: from <= j < |titles| ==> !Matches(titles[j], query, caseSensitive)
    decreases |titles| - from
  {
    if from == |titles| then None
    else if Matches(titles[from], query, caseSensitive) then Some(from)
    else FirstMatchFrom(titles, query, caseSensitive, from + 1)
  }

  /** The index of the first matching title, if any. */
  function FirstMatch(titles: seq<string>, query: string, caseSensitive: bool): (r: Option<nat>)
  {
    FirstMatchFrom(titles, query, caseSensitive, 0)
  }

  /** A matching index with no match before it is the first match. */
  lemma FirstMatchIs(titles: seq<string>, query: string, caseSensitive: bool, i: nat)
    requires i < |titles| && Matches(titles[i], query, caseSensitive)
    requires forall j :: 0 <= j < i ==> !Matches(titles[j], query, caseSensitive)
    ensures FirstMatch(titles, query, caseSensitive) == Some(i)
  {
  }

  /** `find_task_by_title` over the fetched tasks: the first task whose title
      matches, or `None`. */
  function FindFirst<S>(tasks: seq<Task<S>>, query: string, caseSensitive: bool): (r: Option<Task<S>>)
    ensures r.None? <==> forall i :: 0 <= i < |tasks| ==> !Matches(tasks[i].title, query, caseSensitive)
    ensures r.Some? ==> exists i :: 0 <= i < |tasks| && tasks[i] == r.value &&
                                    Matches(tasks[i].title, query, caseSensitive) &&
                                    forall j :: 0 <= j < i ==> !Matches(tasks[j].title, query, caseSensitive)
    ensures r.Some? && caseSensitive ==> r.value.title == query
  {
    var titles := TitlesOf(tasks);
    match FirstMatch(titles, query, caseSensitive)
    case Some(i) => Some(tasks[i])
    case None => None
  }

  /** `item in list(tasks)`: some fetched task equals the item. */
  predicate AnyEquals<S>(tasks: seq<Task<S>>, item: Item<S>)
  {
    exists i :: 0 <= i < |tasks| && tasks[i].Equals(item)
  }

  /** `TodoList.add_task` on the stored titles of a `LocalSource` `src`.
      Unless duplicates are allowed, a title matching case-insensitively
      is either returned or, with `fail`, reported; otherwise the source's
      own `add_task` runs. */
  function ListAdd(src: LocalSource, store: seq<string>, title: string, allowDuplicate: bool, fail: bool): Step<Task<LocalSource>>
  {
    var found := FirstMatch(store, title, false);
    if !allowDuplicate && found.Some? then
      if fail then Step(store, Err(TaskAlreadyInTodo))
      else Step(store, Ok(NewTask(src, store[found.value], None)))
    else Step(StoreAdd(store, title), Ok(NewTask(src, title, None)))
  }

  /** `TodoList.remove_task` on the stored titles: the matched task removes
      itself through its source; no match is silent unless `fail`. */
  function ListRemove(store: seq<string>, title: string, caseSensitive: bool, fail: bool): Step<()>
  {
    match FirstMatch(store, title, caseSensitive)
    case Some(i) => StoreRemove(store, store[i])
    case None => if fail then Step(store, Err(TaskNotOnList)) else Step(store, Ok(()))
  }

  /** Puts `done` in front of the tasks a later step returns, if it returns. */
  function Prepend(done: seq<Task<LocalSource>>, s: Step<seq<Task<LocalSource>>>): Step<seq<Task<LocalSource>>>
  {
    Step(s.store, if s.out.Ok? then Ok(done + s.out.value) else s.out)
  }

  /** `TodoList.add_tasks`: `add_task` on each title in turn; the first
      error stops the rest and discards the results so far. */
  function ListAddAll(src: LocalSource, store: seq<string>, titles: seq<string>, allowDuplicate: bool, fail: bool): Step<seq<Task<LocalSource>>>
    decreases |titles|
  {
    if titles == [] then Step(store, Ok([]))
    else
      var first := ListAdd(src, store, titles[0], allowDuplicate, fail);
      if first.out.Err? then Step(first.store, Err(first.out.error))
      else Prepend([first.out.value], ListAddAll(src, first.store, titles[1..], allowDuplicate, fail))
  }

  /** Prepending twice is prepending the concatenation. */
  lemma PrependTwice(a: seq<Task<LocalSource>>, b: seq<Task<LocalSource>>, s: Step<seq<Task<LocalSource>>>)
    ensures Prepend(a, Prepend(b, s)) == Prepend(a + b, s)
  {
    if s.out.Ok? {
      assert a + (b + s.out.value) == (a + b) + s.out.value;
    }
  }

  /** One step of `ListAddAll` from position `i` of the titles. */
  lemma ListAddAllAt(src: LocalSource, store: seq<string>, titles: seq<string>, i: nat, allowDuplicate: bool, fail: bool)
    requires i < |titles|
    ensures var first := ListAdd(src, store, titles[i], allowDuplicate, fail);
            ListAddAll(src, store, titles[i..], allowDuplicate, fail)
            == if first.out.Err? then Step(first.store, Err(first.out.error))
               else Prepend([first.out.value], ListAddAll(src, first.store, titles[i + 1..], allowDuplicate, fail))
  {
    assert titles[i..][0] == titles[i];
    assert titles[i..][1..] == titles[i + 1..];
  }

  /** `TodoList.remove_tasks`: a task item removes itself through its
      source, a title goes through `remove_task`; the first error stops the
      rest. */
  function ListRemoveAll<S>(store: seq<string>, items: seq<Item<S>>, caseSensitive: bool, fail: bool): Step<()>
    decreases |items|
  {
    if items == [] then Step(store, Ok(()))
    else
      var first := match items[0]
        case TaskItem(t) => StoreRemove(store, t.title)
        case Title(q) => ListRemove(store, q, caseSensitive, fail);
      if first.out.Err? then first
      else ListRemoveAll(first.store, items[1..], caseSensitive, fail)
  }

  /** The client: every query re-fetches from the source it was built on. */
  class TodoList {
    const source: LocalSource

    constructor (source: LocalSource)
      ensures this.source == source
    {
      this.source := source;
    }

    /** `get_tasks` and iteration: the fetched tasks, one per stored title,
        in stored order, all bound to the source. */
    function GetTasks(): (r: seq<Task<LocalSource>>)
      reads source
      ensures TitlesOf(r) == source.tasks
      ensures forall i :: 0 <= i < |r| ==> r[i] == Task(source, source.tasks[i], [])
    {
      source.Fetch()
    }

    /** `len(todo)`: the number of stored titles. */
    function Length(): (n: nat)
      reads source
      ensures n == |source.tasks|
    {
      |GetTasks()|
    }

    /** `item in todo`: a title, or a task by its title, is a member exactly
        when that title is stored. */
    predicate Contains(item: Item<LocalSource>)
      reads source
      ensures Contains(item) <==> item.Name() in source.tasks
    {
      var tasks := GetTasks();
      assert forall i :: 0 <= i < |tasks| ==> (tasks[i].Equals(item) <==> source.tasks[i] == item.Name());
      AnyEquals(tasks, item)
    }

    /** `find_task_by_title`: a scan of the fetched tasks that returns the
        first one whose title equals the query, or equals it after
        lower-casing when the search is not case-sensitive. */
    method FindTaskByTitle(title: string, caseSensitive: bool) returns (r: Option<Task<LocalSource>>)
      ensures r == FindFirst(GetTasks(), title, caseSensitive)
    {
      var tasks := GetTasks();
      var lowered := Lower(title);
      var i := 0;
      while i < |tasks|
        invariant 0 <= i <= |tasks|
        invariant FirstMatchFrom(TitlesOf(tasks), title, caseSensitive, i) == FirstMatch(TitlesOf(tasks), title, caseSensitive)
      {
        var x := tasks[i];
        if x.title == title || (!caseSensitive && Lower(x.title) == lowered) {
          return Some(x);
        }
        i := i + 1;
      }
      return None;
    }

    /** `remove_task`: removes the first matching task through its own
        `remove`, or reports a missing title only when `fail` is set. */
    method RemoveTask(title: string, caseSensitive: bool, fail: bool) returns (r: Result<()>)
      modifies source
      ensures source.tasks == ListRemove(old(source.tasks), title, caseSensitive, fail).store
      ensures r == ListRemove(old(source.tasks), title, caseSensitive, fail).out
    {
      var task := FindTaskByTitle(title, caseSensitive);
      if task.Some? {
        r := Remove(task.value);
      } else if fail {
        r := Err(TaskNotOnList);
      } else {
        r := Ok(());
      }
    }

    /** `add_task`: unless duplicates are allowed, a case-insensitive match
        is returned (or reported when `fail`); otherwise the source adds. */
    method AddTask(title: string, allowDuplicate: bool, fail: bool) returns (r: Result<Task<LocalSource>>)
      modifies source
      ensures source.tasks == ListAdd(source, old(source.tasks), title, allowDuplicate, fail).store
      ensures r == ListAdd(source, old(source.tasks), title, allowDuplicate, fail).out
    {
      if !allowDuplicate {
        var task := FindTaskByTitle(title, false);
        if task.Some? {
          if fail {
            return Err(TaskAlreadyInTodo);
          }
          return Ok(task.value);
        }
      }
      var t := source.AddTask(title);
      r := Ok(t);
    }

    /** `add_tasks`: `add_task` on each title, results in input order. */
    method AddTasks(titles: seq<string>, allowDuplicate: bool, fail: bool) returns (r: Result<seq<Task<LocalSource>>>)
      modifies source
      ensures source.tasks == ListAddAll(source, old(source.tasks), titles, allowDuplicate, fail).store
      ensures r == ListAddAll(source, old(source.tasks), titles, allowDuplicate, fail).out
    {
      var added: seq<Task<LocalSource>> := [];
      var i := 0;
      ghost var whole := ListAddAll(source, source.tasks, titles, allowDuplicate, fail);
      assert whole.out.Ok? ==> [] + whole.out.value == whole.out.value;
      assert titles[0..] == titles;
      while i < |titles|
        invariant 0 <= i <= |titles|
        invariant whole == Prepend(added, ListAddAll(source, source.tasks, titles[i..], allowDuplicate, fail))
      {
        ghost var before := source.tasks;
        ListAddAllAt(source, before, titles, i, allowDuplicate, fail);
        var t := AddTask(titles[i], allowDuplicate, fail);
        if t.Err? {
          return Err(t.error);
        }
        PrependTwice(added, [t.value], ListAddAll(source, source.tasks, titles[i + 1..], allowDuplicate, fail));
        added := added + [t.value];
        i := i + 1;
      }
      assert titles[i..] == [];
      assert added + [] == added;
      r := Ok(added);
    }

    /** `remove_tasks`: a task removes itself, a title goes through
        `remove_task` with the same flags. */
    method RemoveTasks(items: seq<Item<LocalSource>>, caseSensitive: bool, fail: bool) returns (r: Result<()>)
      requires forall k :: 0 <= k < |items| && items[k].TaskItem? ==> items[k].task.source == source
      modifies source
      ensures source.tasks == ListRemoveAll(old(source.tasks), items, caseSensitive, fail).store
      ensures r == ListRemoveAll(old(source.tasks), items, caseSensitive, fail).out
    {
      var i := 0;
      while i < |items|
        invariant 0 <= i <= |items|
        invariant ListRemoveAll(old(source.tasks), items, caseSensitive, fail)
               == ListRemoveAll(source.tasks, items[i..], caseSensitive, fail)
      {
        assert items[i..][1..] == items[i + 1..];
        var res;
        match items[i] {
          case TaskItem(t) =>
            res := Remove(t);
          case Title(q) =>
            res := RemoveTask(q, caseSensitive, fail);
        }
        if res.Err? {
          return res;
        }
        i := i + 1;
      }
      r := Ok(());
    }
  }
}
