# A verified model of the `todo` task store and client

The `todo` package keeps a list of short textual tasks in a pluggable
*source* and offers a client, `TodoList`, that lists, finds, adds and removes
tasks by title. This project models, in Dafny:

- `Task` (`todo/sources.py`): a title, a tag list and the source that owns
  it. Equality looks only at the title, and a task also equals the plain
  string holding its title. `task.remove()` forwards to the owning source.
- `LocalSource`: an in-memory ordered list of titles. It is modelled as a
  class whose `tasks: seq<string>` field its methods change in place.
  `fetch` gives one untagged task per stored title. `add_task` appends only
  an absent title. `remove_task` is Python's `list.remove`, which raises
  `ValueError` for a title that is not stored.
- `GoogleScriptSource`: only the parsing of a `ged=todoGet` response. An
  empty body gives no tasks. Any other body gives one task per
  newline-separated segment.
- `TodoList` (`todo/client.py`): a class over a `LocalSource`. Membership,
  length and iteration re-fetch from the source. `find_task_by_title` is a
  first-match scan that can ignore case. `add_task` and `remove_task` apply
  the duplicate and not-found policy set by the `allow_duplicate` and `fail`
  flags. `add_tasks` and `remove_tasks` are their bulk forms.

Raised exceptions become `Result` values (`Results.Error`): `ValueError`
from `list.remove`, `TaskNotOnList` for "Task not on TODO list." and
`TaskAlreadyInTodo` for "Task already in TODO.". Each state-changing
method's `ensures` ties the new title list and the result to a function of
the old title list: `StoreAdd`, `StoreRemove`, `ListAdd`, `ListRemove`,
`ListAddAll` or `ListRemoveAll`. The lemmas in `Properties` prove what the
client promises about those functions.

Python's `str.lower` is modelled as ASCII lower-casing (`Text.Lower`).
Task equality compares titles only. `LocalSource.remove_task` raises
`ValueError` for a title that is not stored. Every task is built with the
source that owns it.

Files: `results.dfy` (Option, Result, errors), `text.dfy` (lower-casing,
split and join), `sources.dfy` (tasks and sources), `client.dfy` (the
client), `properties.dfy` (lemmas and a session).

## Model

| member | source | states |
|---|---|---|
| `Sources.EqualsIsTitleEquivalence` | todo/sources.py:28-32 | task equality is reflexive, symmetric and transitive, ignores tags and source, and a task equals a string exactly when it equals any task with that title |
| `Sources.NewTask` | todo/sources.py:14-18 | the task keeps its source and title; its tags are `[]` exactly when none or an empty list were given, and otherwise the given list |
| `Sources.Bind` | todo/sources.py:82 | binding titles to a source gives one untagged task per title, in order, each bound to that source |
| `Sources.RemoveFirst` | todo/sources.py:86 | `list.remove` shortens a list holding the title by one, keeps a list without it unchanged, and keeps only elements of the original |
| `Sources.RemoveFirstMultiset` | todo/sources.py:86 | the removal takes away exactly one copy of the title: the multiset drops by `{x}` |
| `Sources.RemoveFirstAt` | todo/sources.py:86 | the removal deletes exactly the first index holding the title and keeps every other entry in order |
| `Sources.RemoveFirstKeepsDistinct` | todo/sources.py:84-86 | removal from a duplicate-free list keeps it duplicate-free, and the title is then absent |
| `Sources.StoreAdd` | todo/sources.py:88-92 | after `add_task` the title is stored, the old list is a prefix of the new one, at most one entry is added, and a present title changes nothing |
| `Sources.StoreAddIdempotent` | todo/sources.py:88-92 | adding the same title twice leaves the list as one add does |
| `Sources.StoreAddKeepsDistinct` | todo/sources.py:88-92 | a duplicate-free list stays duplicate-free under `add_task` |
| `Sources.StoreRemove` | todo/sources.py:84-86 | `remove_task` succeeds exactly when the title is stored and then shortens the list by one; otherwise it raises `ValueError` and changes nothing |
| `Sources.LocalSource.constructor` | todo/sources.py:76-78 | the store starts as the initial title list |
| `Sources.LocalSource.Fetch` | todo/sources.py:80-82 | fetched titles are exactly the stored titles in order, each task untagged and bound to this source |
| `Sources.LocalSource.RemoveTask` | todo/sources.py:84-86 | the new store and the outcome are those of `StoreRemove` on the old store |
| `Sources.LocalSource.AddTask` | todo/sources.py:88-92 | the new store is `StoreAdd` of the old one, and the result is an untagged task with that title bound to this source |
| `Sources.Remove` | todo/sources.py:24-26 | `task.remove()` has exactly the effect and outcome of `remove_task(task)` on the task's own source |
| `Sources.GoogleScriptSource.constructor` | todo/sources.py:54-56 | the source keeps its URL |
| `Sources.GoogleScriptSource.Fetch` | todo/sources.py:58-61 | an empty body gives no tasks and only an empty body does; otherwise joining the titles with newlines gives the body back; titles hold no newline; tasks are untagged and bound to this source |
| `Sources.GoogleScriptSource.FetchCount` | todo/sources.py:61 | a non-empty body gives one task more than it has newlines |
| `Sources.GoogleScriptSource.FetchJoin` | todo/sources.py:61 | serving newline-free titles joined by newlines gives those titles back, except that the single empty title comes back as no task |
| `Text.Lower` | todo/client.py:32-34 | lower-casing keeps the length and lowers each character |
| `Text.LowerIdempotent` | todo/client.py:32-34 | lower-casing twice equals lower-casing once |
| `Text.Split` | todo/sources.py:61 | `split("\n")` gives at least one segment, and no segment holds the separator |
| `Text.JoinSplit` | todo/sources.py:61 | joining the segments of a string with the separator gives the string back |
| `Text.SplitCount` | todo/sources.py:61 | there is one segment more than there are separators |
| `Text.SplitJoin` | todo/sources.py:61 | splitting a join of separator-free parts gives the parts back |
| `Client.MatchesMeaning` | todo/client.py:34 | a case-sensitive match is string equality; a case-insensitive match is equality after lower-casing |
| `Client.FirstMatchFrom` | todo/client.py:33-36 | the result is a matching index with no match before it, or none when no title matches |
| `Client.FirstMatchIs` | todo/client.py:33-36 | a matching index with no match before it is the one the scan returns |
| `Client.FindFirst` | todo/client.py:30-36 | the result is `None` exactly when no fetched task matches; otherwise it is the first matching fetched task; with case sensitivity its title equals the query |
| `Client.TodoList.constructor` | todo/client.py:10-12 | the list keeps the source it is given |
| `Client.TodoList.GetTasks` | todo/client.py:18-28 | iteration and `get_tasks` yield one untagged task per stored title, in stored order, bound to the source |
| `Client.TodoList.Length` | todo/client.py:22-24 | `len` is the number of stored titles |
| `Client.TodoList.Contains` | todo/client.py:14-16 | a title, or a task by its title, is a member exactly when that title is stored |
| `Client.TodoList.FindTaskByTitle` | todo/client.py:30-36 | the scan returns `FindFirst` of the fetched tasks |
| `Client.TodoList.RemoveTask` | todo/client.py:38-44 | the new store and outcome are `ListRemove` of the old store |
| `Client.TodoList.AddTask` | todo/client.py:46-53 | the new store and result are `ListAdd` of the old store |
| `Client.TodoList.AddTasks` | todo/client.py:55-57 | the new store and result are `ListAddAll`: `add_task` on each title in turn, stopping at the first error |
| `Client.TodoList.RemoveTasks` | todo/client.py:59-65 | the new store and outcome are `ListRemoveAll`: task items remove themselves, titles go through `remove_task`, stopping at the first error |
| `Properties.RemoveNeverValueError` | todo/client.py:38-42 | over a local source, `remove_task` never raises the source's `ValueError` |
| `Properties.RemoveMatchedEntry` | todo/client.py:38-42 | when a title matches, exactly the first matching entry is deleted and the call succeeds |
| `Properties.RemoveMissingTitle` | todo/client.py:38-44 | when nothing matches, the store is unchanged and the outcome is an error exactly when `fail` is set |
| `Properties.RemoveExactFromDistinct` | todo/client.py:38-44 | a case-sensitive removal from a duplicate-free store leaves the title absent and the store duplicate-free |
| `Properties.AddExistingTitle` | todo/client.py:46-51 | with duplicates disallowed and a case-insensitive match stored, the store is unchanged and the call returns the first matching task, the one `find_task_by_title` finds case-insensitively, or with `fail` reports the duplicate |
| `Properties.AddNewTitle` | todo/client.py:46-53 | with duplicates allowed or no case-insensitive match, the call is the source's `add_task` |
| `Properties.AddTwiceIsAddOnce` | todo/client.py:46-53 | two `add_task` calls with the defaults leave the store and the result as one call does |
| `Properties.AddKeepsDistinct` | todo/client.py:46-53 | no flag combination stores a duplicate title |
| `Properties.AddedIsMember` | todo/client.py:46-53 | after a successful `add_task` the returned title is stored and matches the requested one case-insensitively |
| `Properties.AddAllFreshTitles` | todo/client.py:55-57 | titles distinct after lower-casing and not yet stored are appended in order, and the results carry exactly those titles |
| `Properties.AddAllWithoutFail` | todo/client.py:55-57 | without `fail`, `add_tasks` never raises and returns one task per title, in input order, each matching its title case-insensitively |
| `Properties.RemoveAllTitlesWithoutFail` | todo/client.py:59-65 | removing by titles only, without `fail`, never raises |
| `Properties.RemoveSameTaskTwice` | todo/client.py:59-63 | a task item listed twice raises `ValueError` on the second removal, even without `fail` |
| `Properties.FetchedAreMembers` | todo/client.py:14-20 | every fetched task is a member of its list |
| `Properties.Scenario` | todo/client.py:22-53 | over `LocalSource(["a", "b"])` the length is 2; after `add_task("c")` it is 3; after `remove_task("a")` the titles are `["b", "c"]` |

## Left out

- The abstract `Source` base class (todo/sources.py:35-48) has no Dafny
  counterpart, because the model uses no traits. `Task` is generic in the
  type of its source. `TodoList` is modelled over `LocalSource` only. The
  lookup functions `FindFirst` and `AnyEquals` are stated for the tasks of
  any source.
- `GoogleScriptSource.add_task` and `remove_task` (todo/sources.py:63-70)
  only send HTTP requests, and `fetch` sends one before parsing. The
  requests, transport errors and the endpoint's own duplicate handling are
  not modelled. `Fetch` takes the response body as an argument.
- `Task.__hash__` (todo/sources.py:20-22) uses Python's built-in `hash` and
  is not modelled. It mixes the tags into the hash while `__eq__` ignores
  them, so equal tasks with different tags can hash differently.
- `LocalSource.__init__` stores the caller's list itself, so the caller
  and the source share it. The model copies the list into the source's own
  sequence.
- `fetch` returns a lazy generator over the live list. The model takes a
  snapshot, so changing the list while iterating is not modelled. This
  shows in `Client.TodoList.RemoveTasks` when it is given the list itself:
  in Python, `todo.remove_tasks(todo)` over `["a", "b", "c"]` skips entries
  as `list.remove` shifts the live list and leaves `["b"]`, while the model
  removes every entry.
- `Text.Lower` is ASCII lower-casing, not Python's full Unicode `str.lower`.
- Comparing a task with anything other than a task or a string (where
  Python's `__eq__` returns `False`) is not modelled.
- `Client.TodoList.RemoveTasks`: requires every task item to be bound to
  the list's own source. In Python a task bound to another source would
  remove itself from that source, which changes several stores at once.
- todo/config.py (configuration loading and backend lookup by name) and
  todo/__main__.py (the command line) are not part of this model.
