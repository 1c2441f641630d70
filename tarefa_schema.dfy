/**
 * The schema statement `up` builds in src/repository/TarefaRepository.ts:
 * table `tarefas` as an ordered list of column definitions, and the strings
 * the source appends, shown to spell out exactly that list.
 */
module TarefaSchema {
  import opened StringBuilderUtils

  /** The column definitions of `tarefas`, in order: an integer primary key, then six text columns. */
  const TarefasColumns: seq<string> := [
    "id INTEGER PRIMARY KEY NOT NULL",
    "titulo TEXT NOT NULL",
    "desc TEXT NOT NULL",
    "materia TEXT NOT NULL",
    "prof TEXT NOT NULL",
    "data TEXT NOT NULL",
    "completo TEXT NOT NULL"]

  /** A column definition followed by `, `, or by the closing `);` when it is the last. */
  function Terminated(def: string, last: bool): string
  {
    def + (if last then ");" else ", ")
  }

  /** The definitions in order, each terminated. */
  function ColumnList(defs: seq<string>): string
  {
    if defs == [] then "" else Terminated(defs[0], |defs| == 1) + ColumnList(defs[1..])
  }

  /** `CREATE TABLE IF NOT EXISTS <table> (<definitions>);` */
  function CreateTableSql(table: string, defs: seq<string>): string
  {
    "CREATE TABLE IF NOT EXISTS " + table + " (" + ColumnList(defs)
  }

  /** The eight strings `up` appends, in order, for table `table`. */
  function UpPieces(table: string): seq<string>
  {
    ["CREATE TABLE IF NOT EXISTS " + table + " (",
     "id INTEGER PRIMARY KEY NOT NULL, ",
     "titulo TEXT NOT NULL, ",
     "desc TEXT NOT NULL, ",
     "materia TEXT NOT NULL, ",
     "prof TEXT NOT NULL, ",
     "data TEXT NOT NULL, ",
     "completo TEXT NOT NULL);"]
  }

  /** Pieces that are the definitions one by one, each terminated, join into the column list. */
  lemma {:induction false} ColumnListIsConcat(pieces: seq<string>, defs: seq<string>)
    requires |pieces| == |defs|
    requires forall i :: 0 <= i < |defs| ==> pieces[i] == Terminated(defs[i], i == |defs| - 1)
    ensures Concat(pieces) == ColumnList(defs)
    decreases |defs|
  {
    if defs != [] {
      ColumnListIsConcat(pieces[1..], defs[1..]);
    }
  }

  /** After the opening piece, the i-th piece `up` appends is the i-th column definition, terminated. */
  lemma UpPieceIsColumn(table: string, i: int)
    requires 0 <= i < |TarefasColumns|
    ensures UpPieces(table)[i + 1] == Terminated(TarefasColumns[i], i == |TarefasColumns| - 1)
  {
  }

  /** The pieces `up` appends join into the CREATE TABLE statement for the `tarefas` columns. */
  lemma SchemaPiecesJoin(table: string, pieces: seq<string>)
    requires pieces == UpPieces(table)
    ensures Concat(pieces) == CreateTableSql(table, TarefasColumns)
  {
    var columns := pieces[1..];
    assert pieces == [pieces[0]] + columns;
    forall i | 0 <= i < |TarefasColumns|
      ensures columns[i] == Terminated(TarefasColumns[i], i == |TarefasColumns| - 1)
    {
      UpPieceIsColumn(table, i);
    }
    ColumnListIsConcat(columns, TarefasColumns);
  }
}
