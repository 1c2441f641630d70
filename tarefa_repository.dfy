/**
 * The task store of src/repository/TarefaRepository.ts over an abstract
 * in-memory table `tarefas`. The table is a sequence of rows, read in
 * storage order; each statement the repository issues is given its
 * standard SQL meaning on that sequence.
 */
module TarefaRepository {
  import opened Wrappers
  import opened SeqFilter
  import opened StringBuilderUtils
  import opened TarefaSchema

  /** A task as the screens see it: six text fields, no key. */
  datatype Tarefa = Tarefa(
    titulo: string, desc: string, materia: string,
    prof: string, data: string, completo: string)

  /** One stored row: the integer primary key and the six text columns. */
  datatype Row = Row(
    id: int, titulo: string, desc: string, materia: string,
    prof: string, data: string, completo: string)

  /** `id` is the primary key: no two rows share it. */
  predicate UniqueIds(rows: seq<Row>)
  {
    forall i, j :: 0 <= i < j < |rows| ==> rows[i].id != rows[j].id
  }

  /**
   * The object literal built from a result row: the six text columns, `id`
   * dropped. The key is all it loses: put back, it rebuilds the row.
   */
  function ToTarefa(row: Row): (t: Tarefa)
    ensures Row(row.id, t.titulo, t.desc, t.materia, t.prof, t.data, t.completo) == row
  {
    Tarefa(row.titulo, row.desc, row.materia, row.prof, row.data, row.completo)
  }

  function TitleIs(t: string): Row -> bool { (row: Row) => row.titulo == t }
  function TitleIsNot(t: string): Row -> bool { (row: Row) => row.titulo != t }
  function IdIs(id: int): Row -> bool { (row: Row) => row.id == id }

  // ---------------------------------------------------------------------
  // The statements, as functions of the table
  // ---------------------------------------------------------------------

  /** `SET desc = ?, materia = ?, prof = ?, data = ?, completo = ?` on one row. */
  function SetColumns(row: Row, task: Tarefa): (r: Row)
    ensures r.id == row.id && r.titulo == row.titulo
    ensures row.titulo == task.titulo ==> ToTarefa(r) == task
  {
    row.(desc := task.desc, materia := task.materia, prof := task.prof,
         data := task.data, completo := task.completo)
  }

  /** `UPDATE tarefas SET … WHERE titulo = ?` with the task's fields as arguments. */
  function UpdateWhereTitle(rows: seq<Row>, task: Tarefa): (r: seq<Row>)
    ensures |r| == |rows|
    ensures forall i :: 0 <= i < |rows| ==> r[i].id == rows[i].id && r[i].titulo == rows[i].titulo
    ensures forall i :: 0 <= i < |rows| && rows[i].titulo == task.titulo ==> ToTarefa(r[i]) == task
    ensures forall i :: 0 <= i < |rows| && rows[i].titulo != task.titulo ==> r[i] == rows[i]
  {
    if rows == [] then []
    else
      var head := if rows[0].titulo == task.titulo then SetColumns(rows[0], task) else rows[0];
      var rest := UpdateWhereTitle(rows[1..], task);
      assert forall i :: 1 <= i < |rows| ==> ([head] + rest)[i] == rest[i - 1] && rows[i] == rows[1..][i - 1];
      [head] + rest
  }

  /** `DELETE FROM tarefas WHERE titulo = ?`: the rows that survive, in order. */
  function DeleteWhereTitle(rows: seq<Row>, t: string): (r: seq<Row>)
    ensures forall i :: 0 <= i < |r| ==> r[i].titulo != t && r[i] in rows
    ensures forall x :: multiset(r)[x] == if x.titulo == t then 0 else multiset(rows)[x]
  {
    Filter(rows, TitleIsNot(t))
  }

  /** `SELECT * FROM tarefas WHERE titulo = ?` */
  function SelectWhereTitle(rows: seq<Row>, t: string): (r: seq<Row>)
    ensures forall i :: 0 <= i < |r| ==> r[i].titulo == t && r[i] in rows
    ensures forall x :: multiset(r)[x] == if x.titulo == t then multiset(rows)[x] else 0
  {
    Filter(rows, TitleIs(t))
  }

  /** `SELECT * FROM tarefas WHERE id = ?` */
  function SelectWhereId(rows: seq<Row>, id: int): (r: seq<Row>)
    ensures forall i :: 0 <= i < |r| ==> r[i].id == id && r[i] in rows
    ensures forall x :: multiset(r)[x] == if x.id == id then multiset(rows)[x] else 0
    ensures UniqueIds(rows) ==> |r| <= 1
  {
    if UniqueIds(rows) then AtMostOneWithId(rows, id); Filter(rows, IdIs(id))
    else Filter(rows, IdIs(id))
  }

  /** `getTaskByTitle`: `null` exactly when no row has the title, otherwise some row with it. */
  function GetTaskByTitle(rows: seq<Row>, t: string): (r: Option<Tarefa>)
    ensures r.None? <==> forall i :: 0 <= i < |rows| ==> rows[i].titulo != t
    ensures r.Some? ==> r.value.titulo == t
    ensures r.Some? ==> exists i :: 0 <= i < |rows| && rows[i].titulo == t && r.value == ToTarefa(rows[i])
  {
    var found := SelectWhereTitle(rows, t);
    assert forall i :: 0 <= i < |rows| && rows[i].titulo == t ==> TitleIs(t)(rows[i]);
    if |found| > 0 then Some(ToTarefa(found[0])) else None
  }

  /** `getTaskById`: `null` exactly when no row has the key, otherwise some row with it. */
  function GetTaskById(rows: seq<Row>, id: int): (r: Option<Tarefa>)
    ensures r.None? <==> forall i :: 0 <= i < |rows| ==> rows[i].id != id
    ensures r.Some? ==> exists i :: 0 <= i < |rows| && rows[i].id == id && r.value == ToTarefa(rows[i])
  {
    var found := SelectWhereId(rows, id);
    assert forall i :: 0 <= i < |rows| && rows[i].id == id ==> IdIs(id)(rows[i]);
    if |found| > 0 then Some(ToTarefa(found[0])) else None
  }

  // ---------------------------------------------------------------------
  // The INSERT statement as written
  // ---------------------------------------------------------------------

  /** The column list of the INSERT: seven columns, one `?` each. */
  const InsertColumns: seq<string> := ["id", "titulo", "desc", "materia", "prof", "data", "completo"]

  /** The argument array passed with the INSERT: six values. */
  function InsertArgs(task: Tarefa): seq<string>
  {
    [task.titulo, task.desc, task.materia, task.prof, task.data, task.completo]
  }

  /** Positional binding of arguments to placeholders, as far as both lists go. */
  function Bind(columns: seq<string>, args: seq<string>): seq<(string, string)>
  {
    var n := if |columns| < |args| then |columns| else |args|;
    seq(n, i requires 0 <= i < n => (columns[i], args[i]))
  }

  /** The outcome of the INSERT, chosen by the database driver. */
  datatype InsertOutcome =
    | Executed(rowsAffected: int, insertId: Option<int>, after: seq<Row>)
    | Threw

  // ---------------------------------------------------------------------
  // The repository object
  // ---------------------------------------------------------------------

  class TaskRepository {
    const tableName: string := "tarefas"
    /** The contents of table `tarefas`, in storage order. */
    var rows: seq<Row>
    /** Every task passed to `create`, in call order. */
    ghost var submitted: seq<Tarefa>

    ghost predicate Valid()
      reads this
    {
      UniqueIds(rows)
    }

    /** A handle on a table that already holds `existing` (empty on first use). */
    constructor (existing: seq<Row>)
      requires UniqueIds(existing)
      ensures Valid() && rows == existing && submitted == []
    {
      rows := existing;
      submitted := [];
    }

    /** `up`: builds the schema statement piece by piece. */
    method Up() returns (sql: string)
      ensures sql == CreateTableSql("tarefas", TarefasColumns)
    {
      var sb := new StringBuilder();
      sb.Append("CREATE TABLE IF NOT EXISTS " + tableName + " (");
      sb.Append("id INTEGER PRIMARY KEY NOT NULL, ");
      sb.Append("titulo TEXT NOT NULL, ");
      sb.Append("desc TEXT NOT NULL, ");
      sb.Append("materia TEXT NOT NULL, ");
      sb.Append("prof TEXT NOT NULL, ");
      sb.Append("data TEXT NOT NULL, ");
      sb.Append("completo TEXT NOT NULL);");
      sql := sb.ToString();
      SchemaPiecesJoin(tableName, sb.pieces);
    }

    /**
     * `create`: never throws. The row the driver stores is not promised to
     * equal `task` (see InsertBindingShifted); only the handling of the
     * driver's answer is modelled.
     */
    method Create(task: Tarefa, outcome: InsertOutcome) returns (id: Option<int>)
      requires Valid()
      requires outcome.Executed? ==> UniqueIds(outcome.after)
      modifies this
      ensures Valid()
      ensures submitted == old(submitted) + [task]
      ensures rows == if outcome.Executed? then outcome.after else old(rows)
      ensures id.Some? <==> outcome.Executed? && outcome.rowsAffected > 0 && outcome.insertId.Some?
      ensures id.Some? ==> id == outcome.insertId
    {
      submitted := submitted + [task];
      match outcome {
        case Threw =>
          id := None;
        case Executed(affected, insertId, after) =>
          rows := after;
          if affected > 0 {
            id := insertId;
          } else {
            id := None;
          }
      }
    }

    /** `listTasks`: one task per stored row, in read order. */
    method ListTasks() returns (tasks: seq<Tarefa>)
      ensures |tasks| == |rows|
      ensures forall i :: 0 <= i < |rows| ==> tasks[i] == ToTarefa(rows[i])
    {
      var resultSet := rows;
      tasks := [];
      var i := 0;
      while i < |resultSet|
        invariant 0 <= i <= |resultSet|
        invariant |tasks| == i
        invariant forall k :: 0 <= k < i ==> tasks[k] == ToTarefa(resultSet[k])
      {
        tasks := tasks + [ToTarefa(resultSet[i])];
        i := i + 1;
      }
    }

    /** `updateTask`: rewrites the five non-key fields of every row with the task's title. */
    method UpdateTask(task: Tarefa)
      requires Valid()
      modifies this`rows
      ensures Valid()
      ensures rows == UpdateWhereTitle(old(rows), task)
    {
      UpdatePreservesUniqueIds(rows, task);
      rows := UpdateWhereTitle(rows, task);
    }

    /** `deleteTaskByTitle`: removes every row with the title; no match is no error. */
    method DeleteTaskByTitle(title: string)
      requires Valid()
      modifies this`rows
      ensures Valid()
      ensures rows == DeleteWhereTitle(old(rows), title)
    {
      FilterPreservesUniqueIds(rows, TitleIsNot(title));
      rows := DeleteWhereTitle(rows, title);
    }
  }

  // ---------------------------------------------------------------------
  // Properties of the statements
  // ---------------------------------------------------------------------

  /** The INSERT names seven columns but binds six values, each one column to the left. */
  lemma InsertBindingShifted(task: Tarefa)
    ensures |InsertArgs(task)| + 1 == |InsertColumns|
    ensures Bind(InsertColumns, InsertArgs(task)) ==
      [("id", task.titulo), ("titulo", task.desc), ("desc", task.materia),
       ("materia", task.prof), ("prof", task.data), ("data", task.completo)]
  {
  }

  /** Removing rows never makes two surviving rows share a key. */
  lemma {:induction false} FilterPreservesUniqueIds(rows: seq<Row>, p: Row -> bool)
    requires UniqueIds(rows)
    ensures UniqueIds(Filter(rows, p))
    decreases |rows|
  {
    if rows != [] {
      var tail := rows[1..];
      UniqueIdsTail(rows);
      FilterPreservesUniqueIds(tail, p);
      if p(rows[0]) {
        KeyNotInTail(rows, Filter(tail, p));
      }
    }
  }

  /** The first row's key is not used by any row kept from the rest of the table. */
  lemma KeyNotInTail(rows: seq<Row>, kept: seq<Row>)
    requires UniqueIds(rows) && rows != []
    requires UniqueIds(kept)
    requires forall j :: 0 <= j < |kept| ==> kept[j] in rows[1..]
    ensures UniqueIds([rows[0]] + kept)
  {
    var r := [rows[0]] + kept;
    forall j | 1 <= j < |r| ensures r[0].id != r[j].id {
      var k :| 0 <= k < |rows| - 1 && rows[1..][k] == r[j];
      assert rows[k + 1] == r[j];
    }
  }

  /** Dropping the first row keeps the remaining keys distinct. */
  lemma UniqueIdsTail(rows: seq<Row>)
    requires UniqueIds(rows) && rows != []
    ensures UniqueIds(rows[1..])
  {
    var tail := rows[1..];
    forall i, j | 0 <= i < j < |tail| ensures tail[i].id != tail[j].id {
      assert tail[i] == rows[i + 1] && tail[j] == rows[j + 1];
    }
  }

  /** With distinct keys, at most one row carries a given key. */
  lemma {:induction false} AtMostOneWithId(rows: seq<Row>, id: int)
    requires UniqueIds(rows)
    ensures |Filter(rows, IdIs(id))| <= 1
    decreases |rows|
  {
    if rows != [] {
      var tail := rows[1..];
      UniqueIdsTail(rows);
      AtMostOneWithId(tail, id);
      var rest := Filter(tail, IdIs(id));
      if rows[0].id == id {
        assert rest == [];
      }
    }
  }

  /** An update keeps every key, so it keeps the keys distinct. */
  lemma UpdatePreservesUniqueIds(rows: seq<Row>, task: Tarefa)
    requires UniqueIds(rows)
    ensures UniqueIds(UpdateWhereTitle(rows, task))
  {
  }

  /** After the update, looking the title up gives back exactly the submitted task. */
  lemma UpdateThenGet(rows: seq<Row>, task: Tarefa)
    requires exists i :: 0 <= i < |rows| && rows[i].titulo == task.titulo
    ensures GetTaskByTitle(UpdateWhereTitle(rows, task), task.titulo) == Some(task)
  {
    var r := UpdateWhereTitle(rows, task);
    var i :| 0 <= i < |rows| && rows[i].titulo == task.titulo;
    assert r[i].titulo == task.titulo;
    var found := GetTaskByTitle(r, task.titulo);
    assert found.Some?;
    var j :| 0 <= j < |r| && r[j].titulo == task.titulo && found.value == ToTarefa(r[j]);
    assert rows[j].titulo == task.titulo;
    assert ToTarefa(r[j]) == task;
  }

  /** An update whose title matches no row leaves the table as it was. */
  lemma UpdateNoMatch(rows: seq<Row>, task: Tarefa)
    requires forall i :: 0 <= i < |rows| ==> rows[i].titulo != task.titulo
    ensures UpdateWhereTitle(rows, task) == rows
  {
  }

  /** Repeating an update changes nothing more. */
  lemma UpdateIdempotent(rows: seq<Row>, task: Tarefa)
    ensures UpdateWhereTitle(UpdateWhereTitle(rows, task), task) == UpdateWhereTitle(rows, task)
  {
  }

  /** After the delete, the title is not found. */
  lemma DeleteThenGet(rows: seq<Row>, t: string)
    ensures GetTaskByTitle(DeleteWhereTitle(rows, t), t) == None
  {
  }

  /**
   * The delete keeps every other row, in the original order, and removes
   * as many rows as the matching SELECT returns.
   */
  lemma DeleteKeepsOthers(rows: seq<Row>, t: string)
    ensures IsSubsequence(DeleteWhereTitle(rows, t), rows)
    ensures forall i :: 0 <= i < |rows| && rows[i].titulo != t ==> rows[i] in DeleteWhereTitle(rows, t)
    ensures |DeleteWhereTitle(rows, t)| + |SelectWhereTitle(rows, t)| == |rows|
  {
    FilterIsSubsequence(rows, TitleIsNot(t));
    FilterSplitsLength(rows, TitleIsNot(t), TitleIs(t));
  }

  /** A delete whose title matches no row leaves the table as it was. */
  lemma DeleteNoMatch(rows: seq<Row>, t: string)
    requires forall i :: 0 <= i < |rows| ==> rows[i].titulo != t
    ensures DeleteWhereTitle(rows, t) == rows
  {
    FilterKeepsAll(rows, TitleIsNot(t));
  }

  /** A second identical delete changes nothing. */
  lemma DeleteIdempotent(rows: seq<Row>, t: string)
    ensures DeleteWhereTitle(DeleteWhereTitle(rows, t), t) == DeleteWhereTitle(rows, t)
  {
    FilterIdempotent(rows, TitleIsNot(t));
  }

  /** With distinct keys, looking a row's key up gives back exactly that row's task. */
  lemma GetTaskByIdUnique(rows: seq<Row>, i: int)
    requires UniqueIds(rows)
    requires 0 <= i < |rows|
    ensures GetTaskById(rows, rows[i].id) == Some(ToTarefa(rows[i]))
  {
    var found := GetTaskById(rows, rows[i].id);
    var j :| 0 <= j < |rows| && rows[j].id == rows[i].id && found.value == ToTarefa(rows[j]);
  }
}
