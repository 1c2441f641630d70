# Task store of a to-do app, modelled in Dafny

The app keeps "tarefas" (tasks) in one table of an embedded SQLite
database. Each task has a title, description, subject, teacher, due date
and a `"0"`/`"1"` completion flag, all text. `TaskRepository` is the only
component that touches the table. It creates the schema, inserts, lists,
updates and deletes by title, and looks tasks up by key or by title. Two
screens add small pure logic around it. The list screen filters tasks by
a case-insensitive title search. The create screen checks required fields
and builds the record it passes to `create`.

The model has seven modules:

- `Wrappers` (wrappers.dfy): `Option`, for `null`, `undefined` and a
  present value.
- `StringBuilderUtils` (string_builder.dfy): the one-field append buffer
  is a class. Its field `value` is updated in place. A ghost log of the
  appended pieces ties `value` to their concatenation.
- `TarefaRepository` (tarefa_repository.dfy): `Tarefa`, the stored `Row`
  (integer `id` plus six text columns) and the table as a `seq<Row>` read in
  storage order. Each statement the repository issues becomes a function of
  the table with its standard SQL meaning: `UpdateWhereTitle`,
  `DeleteWhereTitle`, `SelectWhereTitle`, `SelectWhereId`. The getters are
  pure functions of the table. The class `TaskRepository` holds the table
  in its field `rows`, with methods for the statements that change it.
  `ListTasks` copies rows into a list in an index loop, as the source does.
  The class invariant is the primary key: no two rows share an `id`.
- `TarefaSchema` (tarefa_schema.dfy): the schema statement as an ordered
  list of column definitions, and the strings `up` appends.
- `SeqFilter` (seq_filter.dfy): order-preserving selection. It gives the
  meaning of `WHERE` over the table and of `Array.prototype.filter`.
- `TaskSearch` (task_search.dfy): the title filter of the list screen.
- `CriarScreen` (criar_form.dfy): `handleSave` of the create screen.

The database driver is not part of this model. Its answer to the INSERT
is a parameter of `Create` (`InsertOutcome`): rows affected, an optional
insert id and the resulting table, or an exception. The INSERT names
seven columns (`id` first) but passes six values. So, positionally, the
title binds to `id`, the description to `titulo`, and so on, and
`completo` gets no value. `InsertBindingShifted` states this pairing.
Because of it, the model does not promise that a created row equals the
submitted task.

Two more facts about the code shape the model:

- The primary key is the integer `id`, not the title.
- `updateTask` and `deleteTaskByTitle` are keyed by `titulo`, which need
  not be unique. One call may rewrite or remove several rows.

## Model

| member | source | states |
|---|---|---|
| `StringBuilderUtils.StringBuilder.constructor` | src/utils/StringBuilderUtils.ts:2 | a fresh builder holds the empty string and no pieces |
| `StringBuilderUtils.StringBuilder.Append` | src/utils/StringBuilderUtils.ts:4-6 | the new value is the old value followed by `s` (so it grows by `|s|`), the piece log gains `s`, and value stays the concatenation of all pieces |
| `StringBuilderUtils.StringBuilder.ToString` | src/utils/StringBuilderUtils.ts:8-10 | returns the buffer, equal to the concatenation of every appended piece in call order; changes nothing, so repeated calls agree |
| `StringBuilderUtils.ConcatSnoc` | src/utils/StringBuilderUtils.ts:4-10 | appending one more piece extends the joined string by exactly that piece |
| `TarefaRepository.TaskRepository.constructor` | src/repository/TarefaRepository.ts:14-19 | a handle on a table with distinct keys sees exactly that table and has submitted nothing yet |
| `TarefaRepository.TaskRepository.Up` | src/repository/TarefaRepository.ts:21-31 | the built statement is `CREATE TABLE IF NOT EXISTS tarefas (` followed by the seven definitions of `TarefasColumns` in order (`id INTEGER PRIMARY KEY NOT NULL`, then `titulo`, `desc`, `materia`, `prof`, `data`, `completo`, each `TEXT NOT NULL`), separated by `, ` and closed by `);` |
| `TarefaSchema.SchemaPiecesJoin` | src/repository/TarefaRepository.ts:23-30 | the eight appended strings, concatenated in order, are exactly that CREATE TABLE statement |
| `TarefaSchema.UpPieceIsColumn` | src/repository/TarefaRepository.ts:24-30 | after the opening piece, the i-th appended string is the i-th column definition followed by `, `, or by `);` for the last |
| `TarefaSchema.ColumnListIsConcat` | src/repository/TarefaRepository.ts:24-30 | pieces that are the definitions one by one, each terminated, join into the column list |
| `TarefaRepository.InsertBindingShifted` | src/repository/TarefaRepository.ts:36-44 | the INSERT has one more placeholder than values; bound by position, `titulo` goes to `id`, `desc` to `titulo`, ..., `completo` to `data`, and column `completo` gets nothing |
| `TarefaRepository.TaskRepository.Create` | src/repository/TarefaRepository.ts:35-58 | never throws; returns the insert id exactly when the statement ran, affected more than zero rows and produced an id, and `undefined` otherwise (no row affected, no id, or a driver exception); an exception leaves the table unchanged |
| `TarefaRepository.TaskRepository.ListTasks` | src/repository/TarefaRepository.ts:60-78 | one task per stored row, in read order, each the row's six text columns; the length is the row count; the table is not modified |
| `TarefaRepository.ToTarefa` | src/repository/TarefaRepository.ts:67-75 | the object literal keeps the six text columns and loses only the key: putting the row's `id` back rebuilds the row |
| `TarefaRepository.SetColumns` | src/repository/TarefaRepository.ts:81 | the SET clause keeps the row's `id` and `titulo`; on a row whose title is the task's, the row then reads back as exactly the task |
| `TarefaRepository.UpdateWhereTitle` | src/repository/TarefaRepository.ts:81-89 | same number of rows; every row keeps its `id` and `titulo`; each row whose title matches now carries the task's `desc`, `materia`, `prof`, `data`, `completo`; every other row is unchanged |
| `TarefaRepository.TaskRepository.UpdateTask` | src/repository/TarefaRepository.ts:80-91 | the table becomes `UpdateWhereTitle` of the old table, and keys stay distinct |
| `TarefaRepository.UpdatePreservesUniqueIds` | src/repository/TarefaRepository.ts:81 | the update never makes two rows share a key |
| `TarefaRepository.UpdateThenGet` | src/repository/TarefaRepository.ts:80-136 | if some row has the task's title, looking that title up after the update returns exactly the task |
| `TarefaRepository.UpdateNoMatch` | src/repository/TarefaRepository.ts:81 | when no row has the title the update changes nothing |
| `TarefaRepository.UpdateIdempotent` | src/repository/TarefaRepository.ts:81 | applying the same update twice equals applying it once |
| `TarefaRepository.DeleteWhereTitle` | src/repository/TarefaRepository.ts:94 | every surviving row was in the table and has another title; every copy of a row with another title survives and no copy of a row with the title does |
| `TarefaRepository.TaskRepository.DeleteTaskByTitle` | src/repository/TarefaRepository.ts:93-96 | the table becomes the old rows without those titled `title`, in order, raising nothing; keys stay distinct |
| `TarefaRepository.FilterPreservesUniqueIds` | src/repository/TarefaRepository.ts:94 | removing rows never makes two surviving rows share a key |
| `TarefaRepository.DeleteThenGet` | src/repository/TarefaRepository.ts:93-136 | after the delete, looking the title up returns `null` |
| `TarefaRepository.DeleteKeepsOthers` | src/repository/TarefaRepository.ts:94 | the surviving rows are a subsequence of the old table (order kept), every row with another title survives, and the number removed equals the number the matching SELECT returns |
| `TarefaRepository.DeleteNoMatch` | src/repository/TarefaRepository.ts:94 | when no row has the title the delete changes nothing |
| `TarefaRepository.DeleteIdempotent` | src/repository/TarefaRepository.ts:93-96 | a second identical delete changes nothing |
| `TarefaRepository.SelectWhereTitle` | src/repository/TarefaRepository.ts:119 | every returned row was in the table and has the title; every copy of a row with the title is returned and nothing else |
| `TarefaRepository.SelectWhereId` | src/repository/TarefaRepository.ts:99 | every returned row was in the table and has the key; every copy of a row with the key is returned and nothing else; with distinct keys at most one row comes back |
| `TarefaRepository.GetTaskByTitle` | src/repository/TarefaRepository.ts:118-135 | `null` exactly when no row has the title; otherwise the six text fields of some row with that title, whose `titulo` is the title |
| `TarefaRepository.GetTaskById` | src/repository/TarefaRepository.ts:98-115 | `null` exactly when no row has the key; otherwise the six text fields of some row with that key |
| `TarefaRepository.GetTaskByIdUnique` | src/repository/TarefaRepository.ts:98-116 | with distinct keys, looking up a row's key returns exactly that row's task |
| `SeqFilter.Filter` | src/screens/Ler/Read.tsx:44-46 | the result is no longer than the input, holds only elements of the input that satisfy the predicate, and holds every element of the input that does, as many times as the input holds it |
| `SeqFilter.FilterIsSubsequence` | src/screens/Ler/Read.tsx:44-46 | a filter result keeps the relative order of what it keeps |
| `TaskSearch.ToLower` | src/screens/Ler/Read.tsx:45 | same length, each character lowered (ASCII), and no upper-case ASCII letter remains |
| `TaskSearch.Includes` | src/screens/Ler/Read.tsx:45 | `includes` holds only when the query is no longer than the title |
| `TaskSearch.MatchesIffOccurs` | src/screens/Ler/Read.tsx:44-45 | the `filter` callback accepts a task exactly when the lowered query occurs at some index of the lowered title |
| `TaskSearch.IncludesIffOccurs` | src/screens/Ler/Read.tsx:45 | `includes` holds exactly when the query occurs as a slice at some index of the title |
| `TaskSearch.FilteredTasks` | src/screens/Ler/Read.tsx:43-47 | no longer than the task list; every shown task is in the list and its lower-cased title contains the lower-cased query; every listed task whose lower-cased title contains it is shown, each copy of it (tasks have no key, so equal tasks can repeat) |
| `TaskSearch.FilteredIsSubsequence` | src/screens/Ler/Read.tsx:44-46 | the shown tasks keep their relative order |
| `TaskSearch.EmptyQueryKeepsAll` | src/screens/Ler/Read.tsx:31-48 | an empty query shows every task, so recomputing right after the fetch agrees with setting the filtered list to the fetched list |
| `TaskSearch.ToLowerIdempotent` | src/screens/Ler/Read.tsx:45 | lower-casing twice is lower-casing once |
| `TaskSearch.QueryCaseIrrelevant` | src/screens/Ler/Read.tsx:45 | a query and its lower-cased form show the same tasks |
| `CriarScreen.HandleSave` | src/screens/Criar/Criar.tsx:26-49 | an empty `titulo`, `materia` or `desc` gives the error report and no repository call; otherwise `create` is called once with `NewTask(form)`, whose six fields equal the form's, the table becomes what that call leaves, and success is reported whatever `create` returns |
| `CriarScreen.MissingRequired` | src/screens/Criar/Criar.tsx:27 | the guard on `titulo`, `materia` and `desc`: `!` of a string is true only for the empty string, so it holds exactly when one of the three is empty |
| `CriarScreen.NewTask` | src/screens/Criar/Criar.tsx:32-39 | the record carries each input under the same name, despite the screen's different field order; past the guard its required fields are non-empty |
| `CriarScreen.OptionalFieldsUnchecked` | src/screens/Criar/Criar.tsx:27 | blank `prof` and `data` never cause a rejection |
| `CriarScreen.InitialFormRejected` | src/screens/Criar/Criar.tsx:19-30 | the form as the screen opens (`InitialForm`) has every input empty and `completo` "0", and the guard rejects it |

## Left out

- The database driver (`executeTransaction`, src/database/database) is not part of this model. Its typing and binding rules are not modelled. Each statement is given its standard SQL meaning on the in-memory table.
- TarefaRepository.TaskRepository.Create: does not say which row the INSERT stores. What the driver does with six values for seven placeholders is unknown, so the resulting table is whatever the driver reports (with distinct keys).
- Driver exceptions in `listTasks`, `updateTask`, `deleteTaskByTitle` and the getters are not modelled. The source does not catch them, so they would reach the caller.
- Executing the schema statement is not modelled: `Up` returns the statement it would send. The table's existence is assumed, with `TaskRepository.constructor` taking its current contents.
- Promises, `await` and the un-awaited `up()` call in the constructor. Each repository call is one atomic sequential step.
- Storage order. The SELECTs have no `ORDER BY`, so reading rows in storage order is a modelling choice. No other ordering is claimed, and the getters promise only "some matching row".
- TaskSearch.ToLower: lowers ASCII letters only, not the full Unicode case mapping of `toLowerCase`.
- React state, effects, rendering, alerts, `console.error` and navigation. This covers the other screens (home, search, edit, details) and App.tsx, which only call the repository.
- The `catch` branch of `handleSave` is not modelled. `create` never throws, so nothing from `create` reaches it. `Alert.alert` and `navigation.goBack()` inside the same `try` could throw, but those UI calls are not part of this model.
- Fields the screens read that `Tarefa` does not declare (`task.id` in the list screen, `descricao`/`professor` in the details screen). They are type errors in the source, not behaviour.
