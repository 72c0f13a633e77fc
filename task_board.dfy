/** The task board: the client-side list of tasks and the "add a task" box.
    The component's state (`tasks`, `title`, `adding`, `loading`) becomes
    the fields of a class; each handler becomes a method. The network
    replies the handlers wait for are parameters. */
module Board {
  import opened Options
  import opened Lists
  import opened Text
  import opened Tasks

  function Id(t: Task): string {
    t.id
  }

  /** No id occurs twice in the list. */
  predicate DistinctIds(tasks: seq<Task>) {
    DistinctKeys(tasks, Id)
  }

  /** `prev.filter(t => t.id !== id)`: the list without the tasks whose id
      is `id`, everything else kept in order. */
  function WithoutId(tasks: seq<Task>, id: string): (r: seq<Task>)
    ensures forall t :: multiset(r)[t] == if t.id == id then 0 else multiset(tasks)[t]
    ensures forall t :: t in r ==> t.id != id
    ensures Subsequence(r, tasks)
    ensures DistinctIds(tasks) ==> DistinctIds(r)
  {
    var r := Filter(tasks, (t: Task) => t.id != id);
    if DistinctIds(tasks) then
      SubsequenceKeepsDistinct(r, tasks, Id);
      r
    else
      r
  }

  /** `[created, ...prev.filter(t => t.id !== created.id)]`: the created task
      at the head, exactly once, followed by the rest of the list in its
      order. */
  function PrependCreated(created: Task, prev: seq<Task>): (r: seq<Task>)
    ensures |r| >= 1 && r[0] == created
    ensures forall i :: 1 <= i < |r| ==> r[i].id != created.id
    ensures Subsequence(r[1..], prev)
    ensures forall t: Task :: t.id != created.id ==> multiset(r)[t] == multiset(prev)[t]
    ensures DistinctIds(prev) ==> DistinctIds(r)
  {
    var rest := WithoutId(prev, created.id);
    var r := [created] + rest;
    assert r[1..] == rest;
    assert forall i :: 1 <= i < |r| ==> r[i] in rest;
    r
  }

  /** The JSON body of `GET /api/tasks` as the board receives it. */
  datatype Payload =
    | JsonArray(items: seq<Task>)
    | JsonObject(data: Option<seq<Task>>)  // an object, with or without a `data` array
    | JsonOther                           // `null`, a string, a number, ...

  /** `Array.isArray(data) ? data : (data?.data ?? [])`. */
  function NormalizePayload(p: Payload): (r: seq<Task>)
    ensures p.JsonArray? ==> r == p.items
    ensures p.JsonObject? && p.data.Some? ==> r == p.data.value
    ensures (p.JsonObject? && p.data.None?) || p.JsonOther? ==> r == []
  {
    match p
    case JsonArray(items) => items
    case JsonObject(data) => data.GetOr([])
    case JsonOther => []
  }

  /** The outcome of the list request: the fetch throws, or the server
      answers with a status (`ok` for 2xx) and a payload (`[]` when the
      body is not JSON). */
  datatype LoadReply = LoadThrew | LoadAnswered(ok: bool, payload: Payload)

  /** The outcome of the create request: the fetch throws, or the server
      answers with a status and maybe a `task` in its body. */
  datatype CreateReply = CreateThrew | CreateAnswered(ok: bool, task: Option<Task>)

  /** The optimistic update applies when the reply carries a task with a
      non-empty id (`created && created.id`). */
  predicate HasCreatedTask(reply: CreateReply) {
    reply.CreateAnswered? && reply.ok && reply.task.Some? && reply.task.value.id != ""
  }

  class TaskBoard {
    var tasks: seq<Task>
    var title: string
    var adding: bool
    var loading: bool

    constructor ()
      ensures tasks == [] && title == "" && !adding && !loading
    {
      tasks, title, adding, loading := [], "", false, false;
    }

    /** The text box's `onChange`. */
    method EditTitle(text: string)
      modifies this`title
      ensures title == text
    {
      title := text;
    }

    /** `load`: replaces the list by the normalised payload of a successful
        reply; a failed or thrown request leaves the list as it was. */
    method Load(reply: LoadReply)
      modifies this`tasks, this`loading
      ensures !loading
      ensures tasks == if reply.LoadAnswered? && reply.ok then NormalizePayload(reply.payload)
                       else old(tasks)
    {
      loading := true;
      if reply.LoadAnswered? && reply.ok {
        tasks := NormalizePayload(reply.payload);
      }
      loading := false;
    }

    /** `handleDeleted`: drops the deleted task and nothing else. */
    method HandleDeleted(id: string)
      modifies this`tasks
      ensures tasks == WithoutId(old(tasks), id)
      ensures DistinctIds(old(tasks)) ==> DistinctIds(tasks)
    {
      tasks := WithoutId(tasks, id);
    }

    /** `add` up to its request: with an empty trimmed title, or while an
        earlier add is still waiting, nothing happens; otherwise `adding`
        is set and the request carries the trimmed title. */
    method BeginAdd() returns (sent: Option<string>)
      modifies this`adding
      ensures sent == if Trim(title) == "" || old(adding) then None else Some(Trim(title))
      ensures adding == (old(adding) || sent.Some?)
      ensures sent.Some? ==> sent.value != "" && Trimmed(sent.value)
    {
      var raw := Trim(title);
      if raw == "" || adding {
        return None;
      }
      adding := true;
      return Some(raw);
    }

    /** `add` after its request: clears the text box only on a 2xx reply,
        puts a returned task at the head of the list (or reloads the list
        when there is none), and always ends with `adding` false. */
    method FinishAdd(reply: CreateReply, reload: LoadReply)
      requires adding
      modifies this`tasks, this`title, this`adding, this`loading
      ensures !adding
      ensures title == if reply.CreateAnswered? && reply.ok then "" else old(title)
      ensures HasCreatedTask(reply) ==> tasks == PrependCreated(reply.task.value, old(tasks))
      ensures HasCreatedTask(reply) && DistinctIds(old(tasks)) ==> DistinctIds(tasks)
      ensures reply.CreateAnswered? && reply.ok && !HasCreatedTask(reply) ==>
                tasks == if reload.LoadAnswered? && reload.ok then NormalizePayload(reload.payload)
                         else old(tasks)
      ensures !(reply.CreateAnswered? && reply.ok) ==> tasks == old(tasks)
      ensures reply.CreateAnswered? && reply.ok && !HasCreatedTask(reply) ==> !loading
      ensures !(reply.CreateAnswered? && reply.ok && !HasCreatedTask(reply)) ==> loading == old(loading)
    {
      if reply.CreateAnswered? && reply.ok {
        title := "";
        if HasCreatedTask(reply) {
          tasks := PrependCreated(reply.task.value, tasks);
        } else {
          Load(reload);
        }
      }
      adding := false;
    }
  }

  /** A whole successful add on a list without duplicate ids: the new task
      heads the list exactly once, every other task keeps its place in
      order, and no id is duplicated. */
  method AddScenario(board: TaskBoard, created: Task)
    requires !board.adding && Trim(board.title) != "" && created.id != ""
    requires DistinctIds(board.tasks)
    modifies board
    ensures |board.tasks| >= 1 && board.tasks[0] == created && DistinctIds(board.tasks)
    ensures Subsequence(board.tasks[1..], old(board.tasks))
    ensures board.title == "" && !board.adding
  {
    var sent := board.BeginAdd();
    assert sent == Some(Trim(old(board.title)));
    board.FinishAdd(CreateAnswered(true, Some(created)), LoadThrew);
  }
}
