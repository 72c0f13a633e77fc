/** The task record as the application reads it from the `tasks` table. */
module Tasks {
  import opened Options

  /** One element of a task's `steps` array. The source renders each
      element as text: a string as it is, an object by its `text` member
      when that is present, anything else by its JSON serialisation, which
      the model carries as the given string `json`. */
  datatype Step =
    | StringStep(s: string)
    | ObjectStep(text: Option<string>, json: string)
    | OtherStep(json: string)

  /** The `steps` column: an array of steps, or a value that is not an
      array (`null`, missing, or anything else). */
  datatype StepsField = StepList(items: seq<Step>) | NotAList

  /** One entry of the `notes` column. */
  datatype Note = Note(user: string, at: int, text: string)

  /** A row of the `tasks` table. Nullable columns are `Option`s; the
      creation timestamp is an integer key. */
  datatype Task = Task(
    id: string,
    title: string,
    enhancedTitle: Option<string>,
    steps: StepsField,
    completed: bool,
    userId: Option<string>,
    userEmail: Option<string>,
    source: Option<string>,
    notes: Option<seq<Note>>,
    createdAt: int)

  /** The ordering key of `.order('created_at', ...)`. */
  function CreatedAt(t: Task): int {
    t.createdAt
  }

  /** The authenticated user as the identity provider reports it. */
  datatype User = User(id: string, email: Option<string>)
}
