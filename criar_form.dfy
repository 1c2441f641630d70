/**
 * The save handler of the create-task screen (src/screens/Criar/Criar.tsx):
 * a required-field guard, the record handed to `create`, and the message
 * shown afterwards.
 */
module CriarScreen {
  import opened TarefaRepository

  /** The six form inputs; note the screen's order differs from `Tarefa`'s. */
  datatype Form = Form(
    titulo: string, materia: string, desc: string,
    prof: string, data: string, completo: string)

  /** The form as the screen opens: every input empty, `completo` "0" (not done). */
  const InitialForm: Form := Form("", "", "", "", "", "0")

  /** The guard `!titulo || !materia || !desc`; `!` of a string holds only for "". */
  predicate MissingRequired(f: Form)
  {
    f.titulo == "" || f.materia == "" || f.desc == ""
  }

  /** The object literal `newTask`, field by field from the form. */
  function NewTask(f: Form): (t: Tarefa)
    ensures !MissingRequired(f) ==> t.titulo != "" && t.materia != "" && t.desc != ""
    ensures t.titulo == f.titulo && t.materia == f.materia && t.desc == f.desc
    ensures t.prof == f.prof && t.data == f.data && t.completo == f.completo
  {
    Tarefa(f.titulo, f.desc, f.materia, f.prof, f.data, f.completo)
  }

  /** The alert shown after saving. */
  datatype Report = Success | Error

  /**
   * `handleSave`: an incomplete form is rejected with no repository call;
   * otherwise `create` is called once with the form's fields and success is
   * reported whatever it returns, since it never throws.
   */
  method HandleSave(repo: TaskRepository, form: Form, outcome: InsertOutcome) returns (report: Report)
    requires repo.Valid()
    requires outcome.Executed? ==> UniqueIds(outcome.after)
    modifies repo
    ensures repo.Valid()
    ensures report == Success <==> !MissingRequired(form)
    ensures MissingRequired(form) ==> repo.rows == old(repo.rows) && repo.submitted == old(repo.submitted)
    ensures !MissingRequired(form) ==> repo.submitted == old(repo.submitted) + [NewTask(form)]
    ensures !MissingRequired(form) ==> repo.rows == if outcome.Executed? then outcome.after else old(repo.rows)
  {
    if MissingRequired(form) {
      report := Error;
      return;
    }
    var newTask := NewTask(form);
    var id := repo.Create(newTask, outcome);
    report := Success;
  }

  /** The guard does not look at `prof` or `data`: blanking them never causes a rejection. */
  lemma OptionalFieldsUnchecked(f: Form)
    ensures MissingRequired(f.(prof := "", data := "")) == MissingRequired(f)
  {
  }

  /** A form saved untouched is rejected: every input is empty and `completo` is "0". */
  lemma InitialFormRejected()
    ensures InitialForm.titulo == "" && InitialForm.materia == "" && InitialForm.desc == ""
    ensures InitialForm.prof == "" && InitialForm.data == "" && InitialForm.completo == "0"
    ensures MissingRequired(InitialForm)
  {
  }
}
