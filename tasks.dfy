/** One to-do item and its mapping to and from a row of text fields
    (todo.py, class Task). */
module Tasks {

  /** A task. The default parameter values are those of `Task.__init__`:
      `Task(t)` is `Task(t, "", "Medium")`. No field is validated. */
  datatype Task = Task(title: string, description: string := "", priority: string := DefaultPriority)

  /** The priority of a task made without one, and of a row without a
      third field. */
  const DefaultPriority: string := "Medium"

  /** A task made from a title alone has an empty description and the
      default priority. */
  lemma TaskDefaults(title: string)
    ensures Task(title) == Task(title, "", "Medium")
    ensures Task(title).description == "" && Task(title).priority == DefaultPriority
  {
  }

  /** The row of a task: title, description and priority, in that order.
      Reading it back gives the same task. */
  function ToRow(t: Task): (row: seq<string>)
    ensures |row| == 3
    ensures row[0] == t.title && row[1] == t.description && row[2] == t.priority
    ensures FromRow(row) == t
  {
    [t.title, t.description, t.priority]
  }

  /** The task a row stands for. Fields are taken by position; a missing
      field takes its default, and fields after the third are ignored. */
  function FromRow(row: seq<string>): (t: Task)
    ensures |row| >= 1 ==> t.title == row[0]
    ensures |row| >= 2 ==> t.description == row[1]
    ensures |row| >= 3 ==> t.priority == row[2]
    ensures |row| < 1 ==> t.title == ""
    ensures |row| < 2 ==> t.description == ""
    ensures |row| < 3 ==> t.priority == DefaultPriority
  {
    var title := if |row| > 0 then row[0] else "";
    var description := if |row| > 1 then row[1] else "";
    var priority := if |row| > 2 then row[2] else DefaultPriority;
    Task(title, description, priority)
  }

  /** Only the first three fields of a row matter. */
  lemma FromRowIgnoresExtraFields(row: seq<string>, extra: seq<string>)
    requires |row| >= 3
    ensures FromRow(row + extra) == FromRow(row)
  {
  }

  /** Writing back a task read from a row of at least three fields gives
      that row's first three fields. */
  lemma ToRowFromRow(row: seq<string>)
    requires |row| >= 3
    ensures ToRow(FromRow(row)) == row[..3]
  {
  }

  /** A shorter row is written back padded with the defaults. */
  lemma ToRowFromShortRow(row: seq<string>)
    requires |row| < 3
    ensures ToRow(FromRow(row)) == row + ["", "", DefaultPriority][|row|..]
  {
  }
}
