# todo: a verified model of the task list

`todo.py` is a command-line to-do tracker. Each command loads the task list
from a JSON file; the list is empty when the file is absent. Only `add`, and a
`delete` that finds the id, write the changed list back; `list` and a
`delete` of an absent id write nothing. The commands are:

- `add` appends a new open task.
- `list` prints the tasks.
- `delete` removes the tasks that carry a given id.

This project models that in-memory logic as pure Dafny functions over
`seq<Task>` and proves what the code does with it. It covers the id rule,
the filter-based delete, its not-found test, and the text `list` prints.

Modules, one per concern:

- `Wrappers` (`wrappers.dfy`): `Option`. A stored file is an
  `Option<seq<Task>>`, where `None` means no file.
- `Decimal` (`decimal.dfy`): Python's `str(int)`, used to print ids and
  totals, and a parser that inverts it.
- `Tasks` (`tasks.dfy`): the `Task` record (`id`, `task`, `completed`,
  `created`) and predicates on the ids of a list. Those are presence, count,
  uniqueness and "exactly 1..n".
- `Collection` (`collection.dfy`): `load_todos`, the record that `add_todo`
  appends, and the filter and length test of `delete_todo`.
- `Render` (`render.dfy`): the lines `list_todos` prints, and a reader for
  task lines.
- `Commands` (`commands.dfy`): each command as an `Effect`, meaning the list
  it saves (if any) plus the lines it prints. Also running a sequence of
  commands against the stored list.

The id rule follows the code. A new task gets id = current length + 1, not
max(existing ids) + 1. After adds alone, the ids are exactly 1..n. After a
delete, the next add can repeat an id that a surviving task still holds
(`Collection.AddAfterDeleteDuplicates`, `Commands.DeleteThenAddDuplicatesLiveId`).
It can also hand out the id that was just deleted again
(`Collection.AddAfterDeleteLastReissues`). Ids come from the list length, not
from the largest id + 1, so they can repeat.

## Model

| member | source | states |
|---|---|---|
| Collection.Load | todo.py:12-17 | with no file the list is empty; otherwise it is the stored list as it is |
| Collection.AddTask | todo.py:28-35 | the list grows by exactly one; every earlier task keeps its value and position; the new last task has id = old length + 1, the given text, is not completed, and carries the given creation value |
| Collection.AddKeepsSequential | todo.py:29-35 | when the ids are exactly 1..n, an add keeps them exactly 1..n+1 |
| Collection.AddUniqueIff | todo.py:30 | for a list with unique ids, an add keeps ids unique if and only if no task already holds id length + 1 |
| Collection.RemoveId | todo.py:60 | the filtered list is an order-preserving subsequence of the input; a task is in it exactly when it was in the input and its id differs from the target; its length is the input length minus the number of tasks carrying the target id |
| Collection.RemoveIdIsExact | todo.py:60 | any order-preserving selection that avoids the target id and is that long equals the filter result, so survivors are neither renumbered, reordered nor altered |
| Collection.RemoveIdKeepsUnique | todo.py:60 | filtering a list with unique ids leaves unique ids |
| Collection.Delete | todo.py:59-64 | the length comparison reports not-found exactly when no task has the id; otherwise the result is the filtered list and it is strictly shorter |
| Collection.DeleteUniqueRemovesOne | todo.py:59-66 | with unique ids and the id present, delete succeeds and removes exactly one task |
| Collection.AddAfterDeleteDuplicates | todo.py:30 | for ids 1..n and any deleted id k < n, the next add gets id n, and the surviving task with id n is still in the list, so ids are no longer unique |
| Collection.AddAfterDeleteLastReissues | todo.py:30 | for ids 1..n, deleting id n and then adding hands out id n again (ids stay unique) |
| Decimal.IntToString | todo.py:51 | the id text is non-empty, made of digits with a leading '-' exactly for negative ids, and its digits have no leading zero |
| Decimal.IntRoundTrip | todo.py:51 | parsing an id's printed text gives the id back |
| Decimal.IntToStringInjective | todo.py:51 | distinct ids print as distinct text |
| Render.TaskLines | todo.py:49-51 | one line per task, in stored order, line i being the line of task i |
| Render.ListLines | todo.py:42-53 | an empty list prints only "No todos yet!"; otherwise the output is the header, a rule, one task line per task in order, a rule, and the total that equals the list length |
| Render.TaskLineRoundTrip | todo.py:50-51 | a task line reads back as the task's completion status (check mark iff completed, circle otherwise), id and text, whatever the text contains |
| Render.ListingShowsExactlyTheTasks | todo.py:42-53 | reading back the strings passed to `print`, one per call, yields every stored task's status, id and text, in order and nothing else |
| Commands.AddTodo | todo.py:26-37 | add always saves: the loaded list plus one open task with id = loaded length + 1; prints the confirmation with the text |
| Commands.ListTodos | todo.py:40-53 | list never saves; it prints the full listing of the loaded list (header, rules, task lines, total); what it prints shows exactly the loaded tasks; it prints only the empty message exactly when the list is empty |
| Commands.DeleteTodo | todo.py:56-67 | delete saves nothing and prints not-found exactly when no task has the id; otherwise it saves the filtered, strictly shorter list and prints the confirmation |
| Commands.Execute | todo.py:95-100 | each command runs its own function, and the list is written back exactly for an add or for a delete whose id is present |
| Commands.Next | todo.py:95-100 | after list, or after a delete of an absent id, the stored list is unchanged |
| Commands.RunAdds | todo.py:28-35 | a run of adds keeps the loaded tasks and appends one open task per add in command order, with ids continuing from the loaded length; ids 1..n stay 1..n |
| Commands.AddsFromNothingNumberFromOne | todo.py:30-35 | from no file, n adds give ids exactly 1..n: unique and strictly increasing |
| Commands.DeleteThenAddDuplicatesLiveId | todo.py:26-66 | ids 1,2,3, delete 1, then add: the new task gets id 3, the id of the surviving task 3 |
| Commands.AddThenListScenario | todo.py:26-53 | from no file, adding "buy milk" and listing prints exactly one open task line "○ [1] buy milk" with total 1 |

## Left out

- JSON reading and writing (`json.load`, `json.dump`, `open`, the file path at todo.py:9-23) is I/O. The stored file is an `Option<seq<Task>>` handed in, and saving is the `saved` part of an `Effect`.
- A file that exists but is not valid JSON makes `json.load` raise, and the program stops. That failure is I/O and is not modelled. Records with missing keys or non-integer ids, which Python's dynamic typing would allow, are not modelled either.
- Other stored shapes are not modelled: a JSON value that is not an array (`null` lists as "No todos yet!" at todo.py:43 but makes `len` raise at todo.py:30), a non-boolean `completed` (todo.py:50 tests its truthiness), a non-string `task`, and extra keys in a record, which `add` and `delete` write back (todo.py:35-36, 60-66) but the four-field `Task` cannot hold.
- `datetime.now().isoformat()` (todo.py:33) reads the clock. The creation value is an opaque `Timestamp` parameter.
- `print` is modelled as the list of strings passed to it, one per call, without the newline `print` adds. Output streams and exit codes are not modelled.
- Render.ListingShowsExactlyTheTasks: reads the listing back per `print` call, not per terminal line. A task text containing a newline prints as several terminal lines, and one of them can look like another task's line.
- `main` and argparse (todo.py:70-100) are CLI glue. The help text for a missing command is not modelled. Only the dispatch of the three commands is kept, as `Commands.Execute`.
- There is no "complete" command and no largest-id + 1 policy: the code has neither.
- Not-found on `delete` is printed to standard output with a normal exit; the model keeps it as a printed line and no write.
