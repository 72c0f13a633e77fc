/** The `/api/tasks` route: GET lists the tasks a caller may see, POST
    validates a new task, asks the enhancement workflow for a better title
    and steps, and builds the row to insert. Both are modelled as pure
    functions of their inputs; the database is the abstract sequence of
    rows a query reads (or the error it fails with). */
module TasksRoute {
  import opened Options
  import opened Lists
  import opened Text
  import opened Tasks

  // ---------------------------------------------------------------------
  // Query parameters

  /** The URL's search parameters, in order. */
  type Query = seq<(string, string)>

  /** `searchParams.get(name)`: the value of the first parameter called
      `name`, if any. */
  function Param(q: Query, name: string): (r: Option<string>)
    ensures r.None? <==> forall i :: 0 <= i < |q| ==> q[i].0 != name
    ensures r.Some? ==> exists i :: 0 <= i < |q| && q[i] == (name, r.value)
                                  && forall j :: 0 <= j < i ==> q[j].0 != name
  {
    if q == [] then None
    else if q[0].0 == name then
      assert q[0] == (name, q[0].1);
      Some(q[0].1)
    else
      var r := Param(q[1..], name);
      if r.Some? then
        var i :| 0 <= i < |q[1..]| && q[1..][i] == (name, r.value)
                 && forall j :: 0 <= j < i ==> q[1..][j].0 != name;
        assert q[i + 1] == (name, r.value);
        assert forall j :: 0 <= j < i + 1 ==> q[j].0 != name by {
          forall j | 0 <= j < i + 1 ensures q[j].0 != name {
            if j > 0 { assert q[j] == q[1..][j - 1]; }
          }
        }
        r
      else
        assert forall i :: 0 <= i < |q| ==> q[i].0 != name by {
          forall i | 0 <= i < |q| ensures q[i].0 != name {
            if i > 0 { assert q[i] == q[1..][i - 1]; }
          }
        }
        r
  }

  /** `includeWA`: the `include` parameter mentions `whatsapp`, or `all`
      is exactly `1`. */
  function IncludeWA(q: Query): (b: bool)
    ensures b <==> (Param(q, "include").Some? &&
                    exists i :: OccursAt(Param(q, "include").value, "whatsapp", i))
                   || Param(q, "all") == Some("1")
  {
    var includeParam := Param(q, "include");
    (includeParam.Some? && Includes(includeParam.value, "whatsapp")) || Param(q, "all") == Some("1")
  }

  // ---------------------------------------------------------------------
  // Who sees what

  /** The row's `user_id` is the viewer's id. */
  predicate IdMatch(t: Task, u: User) {
    t.userId == Some(u.id)
  }

  /** The row's `user_email` is the viewer's email. JavaScript's `===`
      between a `null` column and an absent email is false, so both must
      be present. */
  predicate EmailMatch(t: Task, u: User) {
    u.email.Some? && t.userEmail == u.email
  }

  /** The viewer owns the row, by id or by email. */
  predicate Owns(t: Task, u: User) {
    IdMatch(t, u) || EmailMatch(t, u)
  }

  /** Rows that came in through WhatsApp are shown to everybody. */
  predicate IsCommunal(t: Task) {
    t.source == Some("whatsapp")
  }

  /** The predicate of the `includeWA` branch's `filter`. */
  predicate VisibleWithWA(t: Task, u: User) {
    Owns(t, u) || IsCommunal(t)
  }

  /** The value the own-tasks branch interpolates for the email into its
      `or` filter: a template literal renders an absent email as the text
      `undefined`. */
  function EmailInFilter(email: Option<string>): string {
    email.GetOr("undefined")
  }

  /** The own-tasks branch's filter `user_id.eq.<id>,user_email.eq.<email>`
      as the database evaluates it (a `null` column equals nothing). */
  predicate OwnsAsQueried(t: Task, u: User) {
    t.userId == Some(u.id) || t.userEmail == Some(EmailInFilter(u.email))
  }

  /** For a viewer with an email the filter means exactly `Owns`. */
  lemma OwnsAsQueriedWithEmail(t: Task, u: User)
    requires u.email.Some?
    ensures OwnsAsQueried(t, u) <==> Owns(t, u)
  {
  }

  /** The own-tasks query exactly as written. */
  function OwnTasksAsQueried(rows: seq<Task>, u: User): (r: seq<Task>)
    ensures SortedDesc(r, CreatedAt)
    ensures forall t :: t in r <==> t in rows && OwnsAsQueried(t, u)
    ensures forall t :: multiset(r)[t] == if OwnsAsQueried(t, u) then multiset(rows)[t] else 0
  {
    var r := SortDesc(Filter(rows, t => OwnsAsQueried(t, u)), CreatedAt);
    assert forall t :: t in r <==> t in multiset(r);
    r
  }

  /** For a viewer without an email, the query as written returns a row
      whose `user_email` is the text `undefined` although the viewer does
      not own it, and the `includeWA` branch leaves that row out: the
      `includeWA` listing is then not a superset of the own listing. */
  lemma OwnTasksAsQueriedLeaksUndefinedEmail()
    ensures var u := User("u1", None);
            var t := Task("t1", "buy milk", None, NotAList, false, Some("u2"),
                          Some("undefined"), Some("web"), None, 0);
            t in OwnTasksAsQueried([t], u) && !VisibleWithWA(t, u)
  {
  }

  // ---------------------------------------------------------------------
  // GET

  datatype Listing =
    | Listed(tasks: seq<Task>)                  // status 200, the JSON array
    | ListFailed(status: int, message: string)  // `{ error: message }`

  /** The rows of the `includeWA` branch: fetched unordered and filtered. */
  function OwnAndCommunal(rows: seq<Task>, u: User): seq<Task> {
    Filter(rows, t => VisibleWithWA(t, u))
  }

  /** The rows of the own-tasks branch, newest first. */
  function OwnNewestFirst(rows: seq<Task>, u: User): seq<Task> {
    SortDesc(Filter(rows, t => Owns(t, u)), CreatedAt)
  }

  /** The rows of the anonymous WhatsApp branch, newest first. */
  function CommunalNewestFirst(rows: seq<Task>): seq<Task> {
    SortDesc(Filter(rows, IsCommunal), CreatedAt)
  }

  /** GET /api/tasks for an optional `viewer`, query `q` and the outcome
      of the one database query the chosen branch makes. */
  function List(viewer: Option<User>, q: Query, store: Result<seq<Task>, string>): (r: Listing)
    ensures r.ListFailed? <==> store.Failure? && (viewer.Some? || IncludeWA(q))
    ensures r.ListFailed? ==> r.status == 400 && r.message == store.error
    ensures viewer.Some? && IncludeWA(q) && store.Success? ==>
      r.Listed? && Subsequence(r.tasks, store.value) &&
      forall t :: multiset(r.tasks)[t] ==
        if VisibleWithWA(t, viewer.value) then multiset(store.value)[t] else 0
    ensures viewer.Some? && !IncludeWA(q) && store.Success? ==>
      r.Listed? && SortedDesc(r.tasks, CreatedAt) &&
      forall t :: multiset(r.tasks)[t] ==
        if Owns(t, viewer.value) then multiset(store.value)[t] else 0
    ensures viewer.None? && IncludeWA(q) && store.Success? ==>
      r.Listed? && SortedDesc(r.tasks, CreatedAt) &&
      forall t :: multiset(r.tasks)[t] ==
        if IsCommunal(t) then multiset(store.value)[t] else 0
    ensures viewer.None? && !IncludeWA(q) ==> r == Listed([])
  {
    var includeWA := IncludeWA(q);
    if viewer.Some? && includeWA then
      match store
      case Failure(message) => ListFailed(400, message)
      case Success(rows) => Listed(OwnAndCommunal(rows, viewer.value))
    else if viewer.Some? then
      match store
      case Failure(message) => ListFailed(400, message)
      case Success(rows) => Listed(OwnNewestFirst(rows, viewer.value))
    else if includeWA then
      match store
      case Failure(message) => ListFailed(400, message)
      case Success(rows) => Listed(CommunalNewestFirst(rows))
    else
      Listed([])
  }

  /** Asking for WhatsApp tasks too never hides one of the viewer's own
      tasks: the `includeWA` listing contains the own listing, copy for copy. */
  lemma {:induction false} ListIncludeWAIsSuperset(u: User, withWA: Query, without: Query, rows: seq<Task>)
    requires IncludeWA(withWA) && !IncludeWA(without)
    ensures List(Some(u), without, Success(rows)).Listed?
    ensures List(Some(u), withWA, Success(rows)).Listed?
    ensures multiset(List(Some(u), without, Success(rows)).tasks)
            <= multiset(List(Some(u), withWA, Success(rows)).tasks)
  {
    var own := List(Some(u), without, Success(rows)).tasks;
    var all := List(Some(u), withWA, Success(rows)).tasks;
    forall t ensures multiset(own)[t] <= multiset(all)[t] {
    }
  }

  /** For a viewer with an email, the own-tasks branch of `List` returns
      exactly what the query as written returns. */
  lemma ListOwnIsQueryWithEmail(u: User, q: Query, rows: seq<Task>)
    requires u.email.Some? && !IncludeWA(q)
    ensures List(Some(u), q, Success(rows)) == Listed(OwnTasksAsQueried(rows, u))
  {
    forall t | t in rows ensures Owns(t, u) == OwnsAsQueried(t, u) {
      OwnsAsQueriedWithEmail(t, u);
    }
    FilterAgrees(rows, t => Owns(t, u), t => OwnsAsQueried(t, u));
  }

  // A viewer who owns one task, beside a WhatsApp task and a stranger's task.
  const viewerU1 := User("u1", Some("a@x.com"))
  const ownTask := Task("1", "mine", None, NotAList, false, Some("u1"), None, Some("web"), None, 1)
  const whatsAppTask := Task("2", "shared", None, NotAList, false, None, None, Some("whatsapp"), None, 2)
  const strangersTask := Task("3", "theirs", None, NotAList, false, Some("u2"), Some("b@x.com"), Some("web"), None, 3)
  const scenarioRows := [ownTask, whatsAppTask, strangersTask]

  /** The query the task board sends, `?include=whatsapp`, turns
      `includeWA` on. */
  lemma BoardQueryIncludesWA()
    ensures IncludeWA([("include", "whatsapp")])
  {
    assert Param([("include", "whatsapp")], "include") == Some("whatsapp");
    assert OccursAt("whatsapp", "whatsapp", 0);
  }

  lemma ScenarioOwnAndCommunal()
    ensures OwnAndCommunal(scenarioRows, viewerU1) == [ownTask, whatsAppTask]
  {
    assert scenarioRows[1..] == [whatsAppTask, strangersTask];
    assert Filter([strangersTask], t => VisibleWithWA(t, viewerU1)) == [];
    assert Filter([whatsAppTask, strangersTask], t => VisibleWithWA(t, viewerU1)) == [whatsAppTask];
  }

  /** The listing the task board asks for (`?include=whatsapp`). */
  lemma ListScenarioWithWA()
    ensures List(Some(viewerU1), [("include", "whatsapp")], Success(scenarioRows))
            == Listed([ownTask, whatsAppTask])
  {
    BoardQueryIncludesWA();
    ScenarioOwnAndCommunal();
  }

  /** The own listing (no parameters). */
  lemma ListScenarioOwn()
    ensures List(Some(viewerU1), [], Success(scenarioRows)) == Listed([ownTask])
  {
    assert scenarioRows[1..] == [whatsAppTask, strangersTask];
    assert Filter([strangersTask], t => Owns(t, viewerU1)) == [];
    assert Filter([whatsAppTask, strangersTask], t => Owns(t, viewerU1)) == [];
    assert Filter(scenarioRows, t => Owns(t, viewerU1)) == [ownTask];
    assert SortDesc([ownTask], CreatedAt) == [ownTask];
  }

  /** An anonymous caller asking for everything (`?all=1`). */
  lemma ListScenarioAnonymous()
    ensures List(None, [("all", "1")], Success(scenarioRows)) == Listed([whatsAppTask])
            && List(None, [], Success(scenarioRows)) == Listed([])
  {
    assert Param([("all", "1")], "all") == Some("1");
    assert scenarioRows[1..] == [whatsAppTask, strangersTask];
    assert Filter([strangersTask], IsCommunal) == [];
    assert Filter([whatsAppTask, strangersTask], IsCommunal) == [whatsAppTask];
    assert Filter(scenarioRows, IsCommunal) == [whatsAppTask];
    assert SortDesc([whatsAppTask], CreatedAt) == [whatsAppTask];
  }

  // ---------------------------------------------------------------------
  // POST

  /** The `title` member of the request body. */
  datatype TitleField = TitleMissing | TitleText(s: string) | TitleOther

  /** The request body: unparseable JSON makes `req.json()` throw. */
  datatype RequestBody = Unparseable(message: string) | JsonBody(title: TitleField)

  /** `supabase.auth.getUser()`. */
  datatype AuthResult = AuthResult(user: Option<User>, error: Option<string>)

  /** The enhancement workflow's JSON reply (`{}` when it is not JSON);
      `enhancedTitle` is its `enhanced_title` when that is a string. */
  datatype EnhanceBody = EnhanceBody(enhancedTitle: Option<string>, steps: StepsField)

  /** The call to the enhancement workflow: it throws, or it answers. */
  datatype EnhanceOutcome = EnhanceThrew | EnhanceReplied(ok: bool, body: EnhanceBody)

  /** The row POST inserts. */
  datatype NewTask = NewTask(
    title: string,
    enhancedTitle: string,
    steps: seq<Step>,
    completed: bool,
    userId: string,
    userEmail: Option<string>,
    source: string)

  /** Either the error response POST returns before inserting, or the row
      it inserts. */
  datatype Creation = Rejected(status: int, error: string) | Insert(record: NewTask)

  /** ASCII `toLowerCase` of one character. */
  function LowerChar(c: char): char {
    if 'A' <= c <= 'Z' then c - 'A' + 'a' else c
  }

  /** `toLowerCase`, character by character. */
  function Lower(s: string): (r: string)
    ensures |r| == |s| && forall i :: 0 <= i < |s| ==> r[i] == LowerChar(s[i])
  {
    if s == [] then "" else [LowerChar(s[0])] + Lower(s[1..])
  }

  /** `ENHANCE_ON_CREATE`: enhancement is on unless the variable is set to
      `false` in any letter case. */
  function EnhanceOnCreate(env: Option<string>): (b: bool)
    ensures !b <==> env.Some? && |env.value| == 5 &&
                    forall i :: 0 <= i < 5 ==> LowerChar(env.value[i]) == "false"[i]
  {
    Lower(env.GetOr("")) != "false"
  }

  /** Only a five-letter spelling of `false` turns enhancement off; an
      unset variable leaves it on. */
  lemma EnhanceOnCreateDefault(env: Option<string>)
    ensures EnhanceOnCreate(None)
    ensures !EnhanceOnCreate(Some("FALSE")) && !EnhanceOnCreate(Some("False"))
    ensures !EnhanceOnCreate(env) ==> env.Some? && |env.value| == 5
  {
    assert Lower("FALSE") == "false";
    assert Lower("False") == "false";
  }

  /** Title and steps to store: those of a successful enhancement, each
      falling back separately (an empty or missing `enhanced_title` to the
      request title, steps that are not an array to none). */
  function Enhanced(title: string, enabled: bool, outcome: EnhanceOutcome): (r: (string, seq<Step>))
    requires title != ""
    ensures r.0 != ""
    ensures !(enabled && outcome.EnhanceReplied? && outcome.ok) ==> r == (title, [])
    ensures r.0 == title || Some(r.0) == outcome.body.enhancedTitle
    ensures r.1 == [] || (outcome.EnhanceReplied? && outcome.body.steps == StepList(r.1))
    ensures enabled && outcome.EnhanceReplied? && outcome.ok &&
            outcome.body.enhancedTitle.Some? && outcome.body.enhancedTitle.value != "" ==>
              r.0 == outcome.body.enhancedTitle.value
    ensures enabled && outcome.EnhanceReplied? && outcome.ok && outcome.body.steps.StepList? ==>
              r.1 == outcome.body.steps.items
  {
    if enabled && outcome.EnhanceReplied? && outcome.ok then
      var b := outcome.body;
      (if b.enhancedTitle.Some? && b.enhancedTitle.value != "" then b.enhancedTitle.value else title,
       if b.steps.StepList? then b.steps.items else [])
    else
      (title, [])
  }

  /** POST /api/tasks up to the insert: validates the title before looking
      at the session, requires a user, and builds a `web` row owned by that
      user with `completed` false. */
  function Create(body: RequestBody, auth: AuthResult, enhanceEnv: Option<string>,
                  enhancement: EnhanceOutcome): (r: Creation)
    ensures body.Unparseable? ==>
      r == Rejected(500, if body.message == "" then "Server error" else body.message)
    ensures body.JsonBody? && !(body.title.TitleText? && body.title.s != "") ==>
      r == Rejected(400, "Missing title")
    ensures r.Insert? <==>
      body.JsonBody? && body.title.TitleText? && body.title.s != "" &&
      auth.error.None? && auth.user.Some?
    ensures (body.JsonBody? && body.title.TitleText? && body.title.s != "" &&
             (auth.error.Some? || auth.user.None?)) ==>
      r == Rejected(401, "Authentication required")
    ensures r.Insert? ==>
      var rec := r.record;
      rec.title == body.title.s && !rec.completed && rec.source == "web" &&
      rec.userId == auth.user.value.id && rec.userEmail == auth.user.value.email &&
      rec.enhancedTitle != "" &&
      (rec.enhancedTitle, rec.steps) == Enhanced(rec.title, EnhanceOnCreate(enhanceEnv), enhancement)
  {
    match body
    case Unparseable(message) =>
      Rejected(500, if message == "" then "Server error" else message)
    case JsonBody(title) =>
      if !(title.TitleText? && title.s != "") then
        Rejected(400, "Missing title")
      else if auth.error.Some? || auth.user.None? then
        Rejected(401, "Authentication required")
      else
        var user := auth.user.value;
        var (enhancedTitle, steps) := Enhanced(title.s, EnhanceOnCreate(enhanceEnv), enhancement);
        Insert(NewTask(title.s, enhancedTitle, steps, false, user.id, user.email, "web"))
  }

  /** A failed or disabled enhancement leaves the request title and no
      steps. */
  lemma CreateWithoutEnhancement(title: string, user: User, env: Option<string>, enhancement: EnhanceOutcome)
    requires title != ""
    requires !EnhanceOnCreate(env) || enhancement.EnhanceThrew? || !enhancement.ok
    ensures Create(JsonBody(TitleText(title)), AuthResult(Some(user), None), env, enhancement)
            == Insert(NewTask(title, title, [], false, user.id, user.email, "web"))
  {
  }

  /** A successful enhancement with a non-empty title and an array of steps
      is stored as it came. */
  lemma CreateWithEnhancement(title: string, user: User, env: Option<string>,
                              enhancedTitle: string, steps: seq<Step>)
    requires title != "" && enhancedTitle != "" && EnhanceOnCreate(env)
    ensures Create(JsonBody(TitleText(title)), AuthResult(Some(user), None), env,
                   EnhanceReplied(true, EnhanceBody(Some(enhancedTitle), StepList(steps))))
            == Insert(NewTask(title, enhancedTitle, steps, false, user.id, user.email, "web"))
  {
  }

  /** The HTTP reply of POST: `{ ok, error }` or `{ ok: true, task }`. */
  datatype PostReply = PostReply(status: int, ok: bool, error: Option<string>, task: Option<Task>)

  /** The reply, given the outcome of the insert (the stored row or the
      database's error message): success only when a row was stored. */
  function Respond(c: Creation, inserted: Result<Task, string>): (r: PostReply)
    ensures r.ok <==> c.Insert? && inserted.Success?
    ensures r.ok ==> r.status == 201 && r.task == Some(inserted.value) && r.error.None?
    ensures !r.ok ==> r.task.None? && r.error.Some?
    ensures c.Rejected? ==> r.status == c.status && r.error == Some(c.error)
    ensures c.Insert? && inserted.Failure? ==> r.status == 400 && r.error == Some(inserted.error)
  {
    match c
    case Rejected(status, error) =>
      PostReply(status, false, Some(error), None)
    case Insert(_) =>
      match inserted
      case Failure(message) => PostReply(400, false, Some(message), None)
      case Success(row) => PostReply(201, true, None, Some(row))
  }

  /** Every POST answers 201 with the stored row, or one of 400, 401 and
      500 with an error and no row. */
  lemma PostStatuses(body: RequestBody, auth: AuthResult, env: Option<string>,
                     enhancement: EnhanceOutcome, inserted: Result<Task, string>)
    ensures var r := Respond(Create(body, auth, env, enhancement), inserted);
            (r.status == 201 <==> r.ok) && r.status in {201, 400, 401, 500}
  {
  }
}
