/** The ordered, mutable list of tasks and its persistence
    (todo.py, class ToDoList). A file is seen at the level of its rows:
    the splitting of text into fields is the CSV library's business. */
module ToDo {
  import opened Wrappers
  import opened Tasks

  /** A file on disk: whether it exists and, if so, its rows of fields. */
  datatype CsvFile = CsvFile(present: bool, rows: seq<seq<string>>)

  /** The first row of every saved file. */
  const Header: seq<string> := ["title", "description", "priority"]

  /** `ts` with position `i` taken out and the later tasks moved up. */
  function RemoveAt(ts: seq<Task>, i: nat): (r: seq<Task>)
    requires i < |ts|
    ensures |r| == |ts| - 1
    ensures forall k :: 0 <= k < i ==> r[k] == ts[k]
    ensures forall k :: i <= k < |r| ==> r[k] == ts[k + 1]
  {
    ts[..i] + ts[i + 1..]
  }

  /** The position of the first task titled `title`, if any. */
  function FirstWithTitle(ts: seq<Task>, title: string): (r: Option<nat>)
    ensures r.Some? ==> r.value < |ts| && ts[r.value].title == title
    ensures r.Some? ==> forall k :: 0 <= k < r.value ==> ts[k].title != title
    ensures r.None? <==> forall k :: 0 <= k < |ts| ==> ts[k].title != title
  {
    if ts == [] then None
    else if ts[0].title == title then Some(0)
    else
      match FirstWithTitle(ts[1..], title)
      case None => None
      case Some(i) => Some(i + 1)
  }

  /** The rows written for the tasks, one per task, in list order. */
  function TaskRows(ts: seq<Task>): (rows: seq<seq<string>>)
    ensures |rows| == |ts|
    ensures forall k :: 0 <= k < |rows| ==> rows[k] == ToRow(ts[k])
  {
    seq(|ts|, k requires 0 <= k < |ts| => ToRow(ts[k]))
  }

  /** The rows of a saved file: the header, then the tasks' rows. */
  function SavedRows(ts: seq<Task>): (rows: seq<seq<string>>)
    ensures |rows| == |ts| + 1 && rows[0] == Header
    ensures forall k :: 0 <= k < |ts| ==> rows[k + 1] == ToRow(ts[k])
  {
    [Header] + TaskRows(ts)
  }

  /** The tasks read from rows that follow the header, in order: an empty
      row is skipped, any other row is read with `FromRow`. Defined from
      the last row, the order in which the load loop extends its list. */
  function ParseRows(rows: seq<seq<string>>): (ts: seq<Task>)
    ensures |ts| <= |rows|
  {
    if rows == [] then []
    else
      var init := ParseRows(rows[..|rows| - 1]);
      var last := rows[|rows| - 1];
      if last == [] then init else init + [FromRow(last)]
  }

  /** The tasks of an existing file: its first row, whatever it holds, is
      dropped, and the rest are parsed. */
  function LoadedTasks(rows: seq<seq<string>>): (ts: seq<Task>)
    ensures rows == [] ==> ts == []
    ensures rows != [] ==> |ts| <= |rows| - 1
  {
    if rows == [] then [] else ParseRows(rows[1..])
  }

  /** Parsing two blocks of rows one after the other gives the tasks of
      the first block followed by those of the second. */
  lemma {:induction false} ParseRowsAppend(a: seq<seq<string>>, b: seq<seq<string>>)
    ensures ParseRows(a + b) == ParseRows(a) + ParseRows(b)
    decreases |b|
  {
    if b == [] {
      assert a + b == a;
    } else {
      var b' := b[..|b| - 1];
      assert (a + b)[..|a + b| - 1] == a + b';
      ParseRowsAppend(a, b');
    }
  }

  /** An empty row anywhere among the rows is skipped. */
  lemma ParseRowsSkipsEmptyRow(a: seq<seq<string>>, b: seq<seq<string>>)
    ensures ParseRows(a + [[]] + b) == ParseRows(a + b)
  {
    ParseRowsAppend(a + [[]], b);
    ParseRowsAppend(a, [[]]);
    ParseRowsAppend(a, b);
    var empty: seq<seq<string>> := [[]];
    assert empty[..0] == [];
  }

  /** Where no row is empty, there is one task per row, read from it. */
  lemma {:induction false} ParseRowsNonEmpty(rows: seq<seq<string>>)
    requires forall k :: 0 <= k < |rows| ==> rows[k] != []
    ensures |ParseRows(rows)| == |rows|
    ensures forall k :: 0 <= k < |rows| ==> ParseRows(rows)[k] == FromRow(rows[k])
  {
    if rows != [] {
      ParseRowsNonEmpty(rows[..|rows| - 1]);
    }
  }

  /** Reading back a saved list gives the same list: each row written is
      non-empty and reads back as the task it was written from. */
  lemma {:induction false} ParseTaskRows(ts: seq<Task>)
    ensures ParseRows(TaskRows(ts)) == ts
  {
    if ts != [] {
      var init := ts[..|ts| - 1];
      assert TaskRows(ts)[..|ts| - 1] == TaskRows(init);
      ParseTaskRows(init);
      assert ts == init + [ts[|ts| - 1]];
    }
  }

  /** Loading what was saved gives back the saved tasks, in order. */
  lemma SaveLoadRoundTrip(ts: seq<Task>)
    ensures LoadedTasks(SavedRows(ts)) == ts
  {
    ParseTaskRows(ts);
  }

  /** The first row is discarded whatever it holds. */
  lemma LoadDiscardsHeader(header: seq<string>, rest: seq<seq<string>>)
    ensures LoadedTasks([header] + rest) == ParseRows(rest)
  {
  }

  class ToDoList {
    /** The tasks, in insertion order. */
    var tasks: seq<Task>

    /** A new list is empty. */
    constructor ()
      ensures tasks == []
    {
      tasks := [];
    }

    /** Appends `task` at the end. */
    method AddTask(task: Task)
      modifies this
      ensures tasks == old(tasks) + [task]
      ensures |tasks| == |old(tasks)| + 1 && tasks[|tasks| - 1] == task
      ensures tasks[..|old(tasks)|] == old(tasks)
    {
      tasks := tasks + [task];
    }

    /** Removes and returns the task at `index` when it is a position of
      the list; otherwise returns `None` and leaves the list alone. */
    method RemoveTaskByIndex(index: int) returns (removed: Option<Task>)
      modifies this
      ensures 0 <= index < |old(tasks)| ==>
        removed == Some(old(tasks)[index]) && tasks == RemoveAt(old(tasks), index)
      ensures !(0 <= index < |old(tasks)|) ==> removed == None && tasks == old(tasks)
    {
      if 0 <= index < |tasks| {
        removed := Some(tasks[index]);
        tasks := RemoveAt(tasks, index);
        return;
      }
      removed := None;
    }

    /** Removes and returns the first task titled `title`; with no such
      task, returns `None` and leaves the list alone. */
    method RemoveTaskByTitle(title: string) returns (removed: Option<Task>)
      modifies this
      ensures FirstWithTitle(old(tasks), title).None? ==> removed == None && tasks == old(tasks)
      ensures FirstWithTitle(old(tasks), title).Some? ==>
        var i := FirstWithTitle(old(tasks), title).value;
        removed == Some(old(tasks)[i]) && tasks == RemoveAt(old(tasks), i)
    {
      var i := 0;
      while i < |tasks|
        invariant 0 <= i <= |tasks|
        invariant tasks == old(tasks)
        invariant forall k :: 0 <= k < i ==> tasks[k].title != title
      {
        if tasks[i].title == title {
          removed := Some(tasks[i]);
          tasks := RemoveAt(tasks, i);
          return;
        }
        i := i + 1;
      }
      removed := None;
    }

    /** The tasks in their current order; nothing changes. */
    method ListTasks() returns (ts: seq<Task>)
      ensures ts == tasks
    {
      ts := tasks;
    }

    /** Writes the header and then one row per task, in list order, over
      `dest`. Opening the file for writing may fail (`writable` false):
      then the result is false and the file is left as it was. The list
      itself is never changed. */
    method SaveToCsv(dest: CsvFile, writable: bool) returns (ok: bool, written: CsvFile)
      ensures ok == writable
      ensures ok ==> written == CsvFile(true, SavedRows(tasks))
      ensures !ok ==> written == dest
    {
      if !writable {
        return false, dest;
      }
      var rows := [Header];
      for i := 0 to |tasks|
        invariant |rows| == i + 1 && rows[0] == Header
        invariant forall k :: 0 <= k < i ==> rows[k + 1] == ToRow(tasks[k])
      {
        rows := rows + [ToRow(tasks[i])];
      }
      assert rows == SavedRows(tasks) by {
        forall k | 1 <= k < |rows| ensures rows[k] == SavedRows(tasks)[k] {
          assert SavedRows(tasks)[k] == TaskRows(tasks)[k - 1];
        }
      }
      return true, CsvFile(true, rows);
    }

    /** Replaces the list with the tasks of `file`. A missing file gives
      false and leaves the list alone. Otherwise the first row is dropped
      unread, empty rows are skipped, and the list becomes the remaining
      rows' tasks in file order; the old tasks are not kept. */
    method LoadFromCsv(file: CsvFile) returns (ok: bool)
      modifies this
      ensures ok == file.present
      ensures !ok ==> tasks == old(tasks)
      ensures ok ==> tasks == LoadedTasks(file.rows)
    {
      if !file.present {
        return false;
      }
      var body := if file.rows == [] then [] else file.rows[1..];
      tasks := [];
      for i := 0 to |body|
        invariant tasks == ParseRows(body[..i])
      {
        assert body[..i + 1][..i] == body[..i];
        var row := body[i];
        if row == [] {
          continue;
        }
        tasks := tasks + [FromRow(row)];
      }
      assert body[..|body|] == body;
      return true;
    }
  }

  /** Two tasks added to a fresh list, saved, and loaded into another fresh
      list come back as they were added. */
  method SaveLoadScenario() returns (loaded: seq<Task>)
    ensures loaded == [Task("Buy milk", "", "High"), Task("Call Bob", "re: taxes", "Medium")]
  {
    var list := new ToDoList();
    list.AddTask(Task("Buy milk", "", "High"));
    list.AddTask(Task("Call Bob", "re: taxes", "Medium"));
    var ok, file := list.SaveToCsv(CsvFile(false, []), true);
    var other := new ToDoList();
    ok := other.LoadFromCsv(file);
    SaveLoadRoundTrip(list.tasks);
    loaded := other.ListTasks();
  }
}
