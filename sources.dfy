/** Tasks and the sources that store them (todo/sources.py).

    A task is a value: a title, a list of tags and a handle on the source
    that owns it. The in-memory `LocalSource` keeps an ordered list of titles
    and changes it in place; the remote `GoogleScriptSource` is modelled only
    by how it turns a response body into tasks. */
module Sources {
  import opened Results
  import Text

  /** A task bound to its owning source of type `S`. */
  datatype Task<S> = Task(source: S, title: string, tags: seq<string>)
  {
    /** Python's `Task.__eq__`: a task is compared with another task or
        with a plain string, and in both cases only the title decides. */
    predicate Equals(o: Item<S>)
    {
      match o
      case TaskItem(t) => title == t.title
      case Title(s) => title == s
    }
  }

  /** What the client accepts where either a task or a bare title will do. */
  datatype Item<S> = TaskItem(task: Task<S>) | Title(text: string)
  {
    /** The title this item stands for. */
    function Name(): string
    {
      match this
      case TaskItem(t) => t.title
      case Title(s) => s
    }
  }

  /** `Task(source, title, tags=None)`: missing or empty tags give `[]`. */
  function NewTask<S>(source: S, title: string, tags: Option<seq<string>>): (t: Task<S>)
    ensures t.source == source && t.title == title
    ensures t.tags == [] <==> tags.None? || tags.value == []
    ensures tags.Some? ==> t.tags == tags.value
  {
    Task(source, title, if tags.Some? then tags.value else [])
  }

  /** Task equality is an equivalence on titles, blind to tags and source,
      and a task equals a string exactly when it equals any task with that
      string as its title. */
  lemma EqualsIsTitleEquivalence<S>(a: Task<S>, b: Task<S>, c: Task<S>, s: string, src: S, tags: seq<string>)
    ensures a.Equals(TaskItem(a))
    ensures a.Equals(TaskItem(b)) == b.Equals(TaskItem(a))
    ensures a.Equals(TaskItem(b)) && b.Equals(TaskItem(c)) ==> a.Equals(TaskItem(c))
    ensures a.Equals(TaskItem(b)) <==> a.Equals(TaskItem(Task(src, b.title, tags)))
    ensures a.Equals(Title(s)) <==> a.Equals(TaskItem(Task(src, s, tags)))
    ensures forall o: Item<S> :: a.Equals(o) <==> a.title == o.Name()
  {
  }

  /** The titles of a sequence of tasks, in order. */
  function TitlesOf<S>(ts: seq<Task<S>>): (r: seq<string>)
    ensures |r| == |ts|
    ensures forall i :: 0 <= i < |ts| ==> r[i] == ts[i].title
  {
    seq(|ts|, i requires 0 <= i < |ts| => ts[i].title)
  }

  /** `map(partial(Task, src), titles)`: one untagged task per title, each
      bound to `src`. */
  function Bind<S>(src: S, titles: seq<string>): (r: seq<Task<S>>)
    ensures TitlesOf(r) == titles
    ensures forall i :: 0 <= i < |r| ==> r[i].source == src && r[i].tags == []
  {
    seq(|titles|, i requires 0 <= i < |titles| => NewTask(src, titles[i], None))
  }

  /** Binding a non-empty title list binds its head, then its tail. */
  lemma BindCons<S>(src: S, titles: seq<string>)
    requires titles != []
    ensures Bind(src, titles) == [Task(src, titles[0], [])] + Bind(src, titles[1..])
  {
    var r := Bind(src, titles);
    var t := [Task(src, titles[0], [])] + Bind(src, titles[1..]);
    assert |r| == |t|;
    forall i | 0 <= i < |r|
      ensures r[i] == t[i]
    {
      if i > 0 {
        assert t[i] == Bind(src, titles[1..])[i - 1];
        assert TitlesOf(Bind(src, titles[1..]))[i - 1] == titles[i];
      }
    }
  }

  /** A store state after an operation, with what the operation returned or
      raised. */
  datatype Step<T> = Step(store: seq<string>, out: Result<T>)

  /** No title is stored twice. */
  ghost predicate Distinct(s: seq<string>)
  {
    forall i, j :: 0 <= i < j < |s| ==> s[i] != s[j]
  }

  /** Python's `list.remove(x)` on a list holding `x`: the first occurrence
      goes, everything else stays in order. */
  function RemoveFirst(s: seq<string>, x: string): (r: seq<string>)
    ensures x in s ==> |r| == |s| - 1
    ensures x !in s ==> r == s
    ensures forall y :: y in r ==> y in s
  {
    if s == [] then []
    else
      assert s == [s[0]] + s[1..];
      if s[0] == x then s[1..] else [s[0]] + RemoveFirst(s[1..], x)
  }

  /** `RemoveFirst` takes away one copy of `x` and nothing else. */
  lemma {:induction false} RemoveFirstMultiset(s: seq<string>, x: string)
    ensures multiset(RemoveFirst(s, x)) == multiset(s) - multiset{x}
  {
    if s != [] {
      assert s == [s[0]] + s[1..];
      RemoveFirstMultiset(s[1..], x);
    }
  }

  /** `RemoveFirst` deletes exactly the entry at the first index holding `x`. */
  lemma {:induction false} RemoveFirstAt(s: seq<string>, x: string, i: nat)
    requires i < |s| && s[i] == x
    requires forall j :: 0 <= j < i ==> s[j] != x
    ensures RemoveFirst(s, x) == s[..i] + s[i + 1..]
  {
    if i == 0 {
      assert s[..0] + s[1..] == s[1..];
    } else {
      var tail := s[1..];
      assert s[0] != x;
      assert forall j :: 0 <= j < i - 1 ==> tail[j] == s[j + 1];
      RemoveFirstAt(tail, x, i - 1);
      assert RemoveFirst(s, x) == [s[0]] + RemoveFirst(tail, x);
      assert tail[..i - 1] == s[1..i];
      assert tail[i..] == s[i + 1..];
      assert s[..i] == [s[0]] + s[1..i];
    }
  }

  /** Removing from a duplicate-free list keeps it duplicate-free, and the
      removed title is then gone. */
  lemma {:induction false} RemoveFirstKeepsDistinct(s: seq<string>, x: string)
    requires Distinct(s)
    ensures Distinct(RemoveFirst(s, x))
    ensures x !in RemoveFirst(s, x)
  {
    if s != [] && s[0] != x {
      assert Distinct(s[1..]) by {
        forall i, j | 0 <= i < j < |s[1..]| ensures s[1..][i] != s[1..][j] {
          assert s[1..][i] == s[i + 1] && s[1..][j] == s[j + 1];
        }
      }
      RemoveFirstKeepsDistinct(s[1..], x);
      var rest := RemoveFirst(s[1..], x);
      assert s[0] !in s[1..];
    } else if s != [] {
      assert s[0] !in s[1..];
    }
  }

  /** `LocalSource.add_task` on the stored list: append the title unless it
      is already there. */
  function StoreAdd(store: seq<string>, title: string): (r: seq<string>)
    ensures title in r
    ensures |store| <= |r| <= |store| + 1
    ensures r[..|store|] == store
    ensures title in store ==> r == store
  {
    if title in store then store else store + [title]
  }

  /** Adding a stored title again changes nothing. */
  lemma StoreAddIdempotent(store: seq<string>, title: string)
    ensures StoreAdd(StoreAdd(store, title), title) == StoreAdd(store, title)
  {
  }

  /** Adding never introduces a duplicate. */
  lemma StoreAddKeepsDistinct(store: seq<string>, title: string)
    requires Distinct(store)
    ensures Distinct(StoreAdd(store, title))
  {
  }

  /** `LocalSource.remove_task` on the stored list: `list.remove`, which
      raises `ValueError` for a title that is not stored. */
  function StoreRemove(store: seq<string>, title: string): (s: Step<()>)
    ensures s.out.Ok? <==> title in store
    ensures s.out.Err? ==> s.out.error == ValueError && s.store == store
    ensures |s.store| == if title in store then |store| - 1 else |store|
  {
    if title in store then Step(RemoveFirst(store, title), Ok(()))
    else Step(store, Err(ValueError))
  }

  /** The in-memory source: an ordered list of titles, changed in place. */
  class LocalSource {
    var tasks: seq<string>

    constructor (initial: seq<string>)
      ensures tasks == initial
    {
      tasks := initial;
    }

    /** One untagged task per stored title, in stored order, each bound to
        this source. */
    function Fetch(): (r: seq<Task<LocalSource>>)
      reads this
      ensures TitlesOf(r) == tasks
      ensures forall i :: 0 <= i < |r| ==> r[i].source == this && r[i].tags == []
    {
      Bind(this, tasks)
    }

    /** Deletes the first occurrence of the task's title; a title that is
        not stored raises `ValueError` and changes nothing. */
    method RemoveTask(task: Task<LocalSource>) returns (r: Result<()>)
      modifies this
      ensures tasks == StoreRemove(old(tasks), task.title).store
      ensures r == StoreRemove(old(tasks), task.title).out
    {
      if task.title in tasks {
        tasks := RemoveFirst(tasks, task.title);
        r := Ok(());
      } else {
        r := Err(ValueError);
      }
    }

    /** Appends the title when it is absent; either way returns an untagged
        task with that title bound to this source. */
    method AddTask(title: string) returns (t: Task<LocalSource>)
      modifies this
      ensures tasks == StoreAdd(old(tasks), title)
      ensures t == NewTask(this, title, None)
    {
      if title !in tasks {
        tasks := tasks + [title];
      }
      t := NewTask(this, title, None);
    }
  }

  /** `Task.remove()` for a task of the in-memory source: it is exactly
      `remove_task(task)` on the owning source. */
  method Remove(task: Task<LocalSource>) returns (r: Result<()>)
    modifies task.source
    ensures task.source.tasks == StoreRemove(old(task.source.tasks), task.title).store
    ensures r == StoreRemove(old(task.source.tasks), task.title).out
  {
    r := task.source.RemoveTask(task);
  }

  /** The remote source. Requests are not modelled; `Fetch` takes the body
      of the `ged=todoGet` response as its argument. */
  class GoogleScriptSource {
    const url: string

    constructor (url: string)
      ensures this.url == url
    {
      this.url := url;
    }

    /** An empty body gives no tasks; any other body gives one untagged task
        per newline-separated segment, in order, bound to this source. */
    function Fetch(body: string): (r: seq<Task<GoogleScriptSource>>)
      ensures body == "" <==> r == []
      ensures body != "" ==> Text.Join(TitlesOf(r), '\n') == body
      ensures forall i :: 0 <= i < |r| ==> '\n' !in r[i].title
      ensures forall i :: 0 <= i < |r| ==> r[i].source == this && r[i].tags == []
    {
      if body == "" then []
      else
        Text.JoinSplit(body, '\n');
        Bind(this, Text.Split(body, '\n'))
    }

    /** A body that is non-empty has one more task than it has newlines. */
    lemma FetchCount(body: string)
      requires body != ""
      ensures |Fetch(body)| == Text.Count(body, '\n') + 1
    {
      Text.SplitCount(body, '\n');
    }

    /** Serving the titles joined by newlines gives those titles back,
        except that the body for the single empty title is empty. */
    lemma FetchJoin(titles: seq<string>)
      requires |titles| >= 1
      requires forall k :: 0 <= k < |titles| ==> '\n' !in titles[k]
      ensures titles != [""] ==> TitlesOf(Fetch(Text.Join(titles, '\n'))) == titles
      ensures titles == [""] ==> Fetch(Text.Join(titles, '\n')) == []
    {
      Text.SplitJoin(titles, '\n');
    }
  }
}
