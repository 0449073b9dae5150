# To-do list: a Dafny model

This project models the logic of a single-user command-line to-do list
(`todo.py`). A task is a record of three texts (title, description,
priority). A to-do list is an ordered, mutable list of tasks with append,
removal by position, removal of the first task with a given title, and
listing. The list is saved to a comma-separated file (a header row, then
one row per task) and loaded back from one. The answer to the priority
prompt is checked before a task is added.

Modules:

- `Wrappers` (wrappers.dfy): `Option`, standing for Python's `None` results.
- `Tasks` (tasks.dfy): the `Task` datatype, whose constructor carries the
  default values of `Task.__init__` (`Task(t)` is `Task(t, "", "Medium")`),
  and the row mappings `ToRow` / `FromRow`.
- `ToDo` (todo_list.dfy): the class `ToDoList` with its `tasks` field
  changed in place by its methods, and a file modelled as a value
  `CsvFile(present, rows)`: whether the file exists, and its rows of
  already-split fields. `SavedRows`, `ParseRows` and `LoadedTasks` are the
  specification functions of saving and loading.
- `Priority` (priority.dfy): `str.strip`, `str.capitalize` and the
  acceptance test of one answer to the priority prompt, on ASCII text.

## Model

| member | source | states |
|---|---|---|
| `Tasks.TaskDefaults` | todo.py:5-9 | a task made from a title alone has description `""` and priority `"Medium"` |
| `Tasks.ToRow` | todo.py:12-13 | a task's row has exactly three fields, title, description and priority in that order, and `FromRow` reads it back as the same task |
| `Tasks.FromRow` | todo.py:16-21 | fields are read by position; a row shorter than 1, 2 or 3 fields gets title `""`, description `""` or priority `"Medium"` |
| `Tasks.FromRowIgnoresExtraFields` | todo.py:18-20 | fields after the third do not change the task read |
| `Tasks.ToRowFromRow` | todo.py:12-21 | writing back a task read from a row of three or more fields gives the row's first three fields |
| `Tasks.ToRowFromShortRow` | todo.py:12-21 | writing back a task read from a shorter row gives the row padded with the defaults |
| `ToDo.ToDoList.constructor` | todo.py:29-30 | a new list is empty |
| `ToDo.ToDoList.AddTask` | todo.py:33-34 | the list grows by one, the new task is last, and every earlier task stays where it was |
| `ToDo.RemoveAt` | todo.py:39 | popping position `i` leaves one task fewer: the tasks before `i` stay put and the later ones move up by one |
| `ToDo.ToDoList.RemoveTaskByIndex` | todo.py:37-40 | an index outside `0 <= index < len` returns `None` and leaves the list alone; otherwise the task at the index is returned and the list becomes the old one without that position |
| `ToDo.FirstWithTitle` | todo.py:44-45 | the position found holds a task with the title and no earlier task has it; no position is found exactly when no task has the title |
| `ToDo.ToDoList.RemoveTaskByTitle` | todo.py:43-47 | only the first task with the title is removed and returned, the others keep their order; with no such task `None` is returned and the list is unchanged |
| `ToDo.ToDoList.ListTasks` | todo.py:50-51 | the result is the current list, and nothing changes |
| `ToDo.TaskRows` | todo.py:65-66 | one row per task, each the task's `ToRow`, in list order |
| `ToDo.SavedRows` | todo.py:63-66 | a saved file is the header row followed by each task's row, in list order |
| `ToDo.ToDoList.SaveToCsv` | todo.py:54-70 | a successful save writes exactly `SavedRows` of the list; a file that cannot be opened is left as it was and false is returned; the list is never changed |
| `ToDo.ParseRows` | todo.py:86-90 | there are never more tasks than rows |
| `ToDo.ParseRowsAppend` | todo.py:86-90 | parsing rows block by block gives the tasks of each block in file order |
| `ToDo.ParseRowsSkipsEmptyRow` | todo.py:87-88 | an empty row anywhere is skipped |
| `ToDo.ParseRowsNonEmpty` | todo.py:86-90 | with no empty rows there is one task per row, read from that row |
| `ToDo.LoadedTasks` | todo.py:84-90 | an empty file gives no tasks; otherwise the first row never yields a task, so there are fewer tasks than rows |
| `ToDo.LoadDiscardsHeader` | todo.py:84 | the first row is dropped whatever it holds |
| `ToDo.ToDoList.LoadFromCsv` | todo.py:73-94 | a missing file returns false and leaves the list alone; otherwise the list is replaced, not extended, by the tasks of the rows after the first |
| `ToDo.ParseTaskRows` | todo.py:63-90 | the task rows written by a save parse back to the same tasks |
| `ToDo.SaveLoadRoundTrip` | todo.py:54-94 | loading a saved file gives back the saved list, in order |
| `ToDo.SaveLoadScenario` | todo.py:28-94 | two tasks added to a new list, saved and loaded into another new list come back as added |
| `Priority.TrimStart` | todo.py:114 | only leading white space is removed, and the result does not start with white space |
| `Priority.TrimEnd` | todo.py:114 | only trailing white space is removed, and the result does not end with white space |
| `Priority.Strip` | todo.py:114 | the result is a slice of the answer that neither starts nor ends with white space, and everything cut off before and after it is white space |
| `Priority.Capitalize` | todo.py:117 | the first character is not a lower-case letter, no later one is upper-case, and the result equals the answer up to case |
| `Priority.NormalizePriority` | todo.py:115-121 | an empty answer gives `"Medium"`; anything accepted is one of High, Medium, Low |
| `Priority.ResponsePriority` | todo.py:114-121 | an answer of white space only gives `"Medium"`; anything accepted is one of the three levels |
| `Priority.ResponsePriorityPadded` | todo.py:114-121 | an answer with white space around it is accepted or rejected exactly as the answer without it, so a padded level in any case is accepted and anything else is rejected |
| `Priority.CapitalizeMatches` | todo.py:117 | capitalising gives a capitalised word exactly when the answer equals it up to case |
| `Priority.NormalizePriorityAccepts` | todo.py:115-121 | an answer is accepted as a level exactly when it is that level in any mix of cases (or empty, for Medium) |
| `Priority.NormalizePriorityIdempotent` | todo.py:117-119 | an accepted level is accepted again as itself |

## Left out

- The CSV field encoding (commas, quotes and line breaks inside fields) is done by Python's `csv` module, which is not part of this model: a file is its sequence of already-split rows, and the model takes it that the reader gives back the rows the writer wrote.
- Opening, reading and writing files, `os.path.exists`, and the printed error messages are not modelled; existence is the `present` flag of `CsvFile`.
- ToDo.ToDoList.SaveToCsv: the only failure modelled is the file failing to open for writing (parameter `writable`); a failure part-way through writing, which leaves a truncated file, is not.
- ToDo.ToDoList.LoadFromCsv: a read error part-way through a load, after which Python keeps the tasks read so far and returns false, is not modelled; here a present file always loads.
- `ToDo.ToDoList.ListTasks` returns the list's value; Python returns the list object itself, so a caller could change the to-do list through it. Aliasing is not modelled.
- `main` and `print_menu` (todo.py:101-201) and the prompt-and-repeat loop of `input_priority` are terminal I/O and are not modelled; the checks they apply to one answer are (`Priority.ResponsePriority`).
- Priority.Strip and `Priority.Capitalize` are exact only for ASCII text: Python's Unicode white space and case mappings are not modelled, and non-ASCII characters are left unchanged.
