# todo-ai task core, in Dafny

This project models the task core of todo-ai, a small to-do web
application. Users add tasks from a web board. A workflow "enhances" each
new task with a better title and suggested steps. Tasks that arrive through
WhatsApp are visible to every user. The model covers three parts.

- **The `/api/tasks` route** (`tasks_route.dfy`, module `TasksRoute`).
  - `GET` is modelled as the function `List`. It takes the signed-in user
    (if any), the URL's query parameters, and the rows the query reads or
    its error. It applies the chosen branch's filter and ordering and
    returns the JSON listing or the `400` error. Its own-tasks branch uses
    the corrected ownership test (see "## Findings"); `OwnTasksAsQueried`
    is that branch exactly as written, and the two agree for every viewer
    who has an email.
  - `POST` is modelled as the function `Create`, which validates the
    request and builds the row to insert, plus `Respond`, which maps the
    insert's outcome to the HTTP reply.
- **The task board** (`task_board.dfy`, module `Board`). A class
  `TaskBoard` holds the component's state: `tasks`, `title`, `adding` and
  `loading`. Its methods are the handlers: `Load`, `HandleDeleted`, and
  `add` split at its request into `BeginAdd` and `FinishAdd`. The server's
  replies are method parameters.
- **The task card** (`task_item.dfy`, module `Item`).
  - The steps codec is a set of functions. `StepsText` renders the steps
    as text for the editor. `ParseSteps` turns the editor's text back into
    steps.
  - A class `TaskItem` holds the card's state. Its methods are the
    handlers: completion toggle, edit/save/cancel, the note dialog and
    deletion.

Three support modules hold the JavaScript operations the code relies on:

- `Text` (`text.dfy`): `trim` with the ECMAScript whitespace set, `split`
  and `join` on one character, and `includes`.
- `Lists` (`lists.dfy`): `filter`, ordering by `created_at` descending, and
  the subsequence relation.
- `Options` (`options.dfy`): optional values and results.

`Tasks` (`task.dfy`) is the task record.

The main properties proved:

- `GET`:
  - Each branch returns exactly the rows its predicate admits, copy for
    copy.
  - The own-tasks branch and the anonymous WhatsApp branch are ordered
    newest first.
  - The `includeWA` branch keeps the database's order.
  - Asking for WhatsApp tasks too never hides one of the viewer's own
    tasks.
- `POST`:
  - The title is validated before authentication.
  - Every reply is 201, 400, 401 or 500.
  - A stored row is always a non-completed `web` task owned by the caller
    and has a non-empty enhanced title.
- Board:
  - Deleting a task drops that task and nothing else.
  - The optimistic add puts the created task at the head exactly once and
    keeps the rest in order, so ids stay distinct.
- Card:
  - Parsing a rendered list of clean steps gives it back.
  - The editor's Cancel never changes the parsed steps.
  - A blank note sends nothing and changes nothing.

## Model

| member | source | states |
|---|---|---|
| Lists.Filter | src/app/api/tasks/route.ts:92-96 | `filter` keeps an element exactly when the predicate holds, with every copy, in the original order (a subsequence) |
| Lists.SortDesc | src/app/api/tasks/route.ts:113 | `.order('created_at', { ascending: false })` yields the same rows (a permutation), newest first |
| Lists.FilterKeepsAll | src/components/task-item.tsx:59 | a filter whose predicate admits every element returns the sequence unchanged |
| Text.Trim | src/components/task-board.tsx:55 | `trim()` leaves no whitespace at either end |
| Text.TrimSlice | src/components/task-board.tsx:55 | `trim()` returns a contiguous middle part of the string and removes only whitespace before and after it |
| Text.TrimIdempotent | src/components/task-item.tsx:59 | trimming twice is trimming once |
| Text.Split | src/components/task-item.tsx:59 | `split('\n')` returns at least one piece, and joining the pieces with the separator gives back the string |
| Text.SplitPieces | src/components/task-item.tsx:59 | no piece of a split contains the separator |
| Text.SplitJoin | src/components/task-item.tsx:43 | splitting a join of separator-free parts (at least one) gives back the parts: `split` inverts `join` |
| Text.JoinSeparators | src/components/task-item.tsx:43 | the join of one or more separator-free parts contains exactly one separator fewer than there are parts (where they stand follows from Text.SplitJoin) |
| Text.Includes | src/app/api/tasks/route.ts:44 | `includes(sub)` holds exactly when `sub` occurs at some position |
| TasksRoute.Param | src/app/api/tasks/route.ts:43-45 | `searchParams.get(name)` is absent exactly when no parameter has that name, and otherwise is the value of the first one |
| TasksRoute.IncludeWA | src/app/api/tasks/route.ts:43-45 | `includeWA` holds exactly when the `include` parameter contains `whatsapp` or the `all` parameter is `1` |
| TasksRoute.BoardQueryIncludesWA | src/app/api/tasks/route.ts:43-45 | the board's query `?include=whatsapp` turns `includeWA` on |
| TasksRoute.OwnsAsQueriedWithEmail | src/app/api/tasks/route.ts:112 | for a viewer who has an email, the `or` filter as written selects exactly the rows the viewer owns by id or by email |
| TasksRoute.OwnTasksAsQueried | src/app/api/tasks/route.ts:109-113 | the own-tasks query as written returns the rows admitted by the interpolated `or` filter, each as often as in the table, newest first |
| TasksRoute.OwnTasksAsQueriedLeaksUndefinedEmail | src/app/api/tasks/route.ts:112 | for a viewer without an email, the query as written returns a stranger's row whose `user_email` is the text `undefined`, a row the `includeWA` branch does not show |
| TasksRoute.List | src/app/api/tasks/route.ts:50-141 | the four branches of GET. The result fails with status 400 and the database's message exactly when a query ran and failed. With a viewer and `includeWA`, it holds the rows the viewer owns or that came from WhatsApp, in database order. With a viewer only, it holds the owned rows, newest first. With `includeWA` only, it holds the WhatsApp rows, newest first. With neither, it is `[]`. Each branch keeps every copy of what it admits |
| TasksRoute.ListIncludeWAIsSuperset | src/app/api/tasks/route.ts:92-96 | for the same viewer and rows, the `includeWA` listing contains the own-tasks listing, copy for copy |
| TasksRoute.ListOwnIsQueryWithEmail | src/app/api/tasks/route.ts:107-113 | for a viewer with an email, the own-tasks branch of `List` returns exactly what the query as written returns |
| TasksRoute.ListScenarioWithWA | src/app/api/tasks/route.ts:50-106 | with `?include=whatsapp`, a viewer sees their own task and the WhatsApp task but not a stranger's task |
| TasksRoute.ListScenarioOwn | src/app/api/tasks/route.ts:107-121 | without parameters, the same viewer sees only their own task |
| TasksRoute.ListScenarioAnonymous | src/app/api/tasks/route.ts:122-141 | an anonymous caller sees only the WhatsApp task with `?all=1`, and nothing without it |
| TasksRoute.Lower | src/app/api/tasks/route.ts:197 | `toLowerCase` maps each character separately and keeps the length |
| TasksRoute.EnhanceOnCreate | src/app/api/tasks/route.ts:197 | enhancement is off exactly when `ENHANCE_ON_CREATE` is set to the five letters of `false` in any letter case |
| TasksRoute.EnhanceOnCreateDefault | src/app/api/tasks/route.ts:197 | enhancement is on when `ENHANCE_ON_CREATE` is unset. `FALSE` and `False` turn it off. Only a five-character value can turn it off |
| TasksRoute.Enhanced | src/app/api/tasks/route.ts:198-218 | the stored enhanced title is never empty. Without a successful enhancement the result is the request title with no steps. After an enabled, 2xx reply, a non-empty `enhanced_title` of the reply is stored, otherwise the request title; the reply's `steps` are stored when they are an array, otherwise none |
| TasksRoute.Create | src/app/api/tasks/route.ts:144-228 | unparseable JSON gives 500 with the error's message or `Server error`. A missing, empty or non-string title gives 400 `Missing title`, checked before authentication. An auth error or no user gives 401. Otherwise a row is inserted with the request title, `completed` false, `source` `web`, the caller's id and email, and the enhanced title and steps |
| TasksRoute.CreateWithoutEnhancement | src/app/api/tasks/route.ts:197-218 | with enhancement disabled, thrown or failed, the row stores the request title as its enhanced title and has no steps |
| TasksRoute.CreateWithEnhancement | src/app/api/tasks/route.ts:197-228 | with enhancement on and a 2xx reply carrying a non-empty title and an array of steps, the row stores that title and those steps |
| TasksRoute.Respond | src/app/api/tasks/route.ts:230-235 | `ok` holds exactly when a row was built and stored. Then the status is 201 and the stored row is returned. Otherwise there is an error and no task, with the rejection's status or 400 for a database error |
| TasksRoute.PostStatuses | src/app/api/tasks/route.ts:144-237 | every POST answers 201, 400, 401 or 500, and 201 exactly when `ok` |
| Board.WithoutId | src/components/task-board.tsx:50-52 | `filter(t => t.id !== id)` removes every task with that id, keeps every other copy in order, and keeps ids distinct |
| Board.PrependCreated | src/components/task-board.tsx:83-85 | the created task is at the head and nowhere else. The other tasks follow in their order with their counts unchanged, and distinct ids stay distinct |
| Board.NormalizePayload | src/components/task-board.tsx:29 | an array is taken as is. An object yields its `data` array or `[]`. Anything else yields `[]` |
| Board.TaskBoard.constructor | src/components/task-board.tsx:11-14 | the board starts with no tasks, an empty title, and not adding or loading |
| Board.TaskBoard.EditTitle | src/components/task-board.tsx:110 | the text box sets the title |
| Board.TaskBoard.Load | src/components/task-board.tsx:21-40 | a 2xx reply replaces the list with the normalised payload. A failed or thrown request keeps the list. `loading` ends false |
| Board.TaskBoard.HandleDeleted | src/components/task-board.tsx:50-52 | the list becomes the old list without the deleted id, keeping ids distinct |
| Board.TaskBoard.BeginAdd | src/components/task-board.tsx:54-58 | nothing is sent, and nothing changes, when the trimmed title is empty or an add is pending. Otherwise the trimmed (non-empty) title is sent and `adding` is set |
| Board.TaskBoard.FinishAdd | src/components/task-board.tsx:62-94 | `adding` ends false. The title is cleared only on a 2xx reply. A returned task with an id goes to the head of the list. A 2xx reply without one reloads the list and ends with `loading` false. A failure leaves the list alone |
| Board.AddScenario | src/components/task-board.tsx:54-95 | a successful add on a list with distinct ids puts the new task at the head, keeps the others in order, keeps ids distinct, and clears the box |
| Item.StepText | src/components/task-item.tsx:42 | a string step renders as itself, an object step as its `text` when present and otherwise as its JSON, any other value as its JSON |
| Item.StepTexts | src/components/task-item.tsx:42 | each step is rendered in place: a string as itself, an object as its `text` or its JSON |
| Item.StepsText | src/components/task-item.tsx:39-45 | a non-array and an empty array give empty text. For a non-empty list of steps on one line each, splitting the text on newlines gives back the rendered steps |
| Item.TrimAll | src/components/task-item.tsx:59 | `map(s => s.trim())` trims each line in place |
| Item.TrimAllClean | src/components/task-item.tsx:59 | lines trimmed from newline-free lines are trimmed and still newline-free |
| Item.ParseSteps | src/components/task-item.tsx:58-61 | `stepsArray` holds only non-empty, trimmed, single-line steps |
| Item.ParseJoin | src/components/task-item.tsx:58-61 | clean steps joined with newlines parse back to themselves |
| Item.CancelKeepsSteps | src/components/task-item.tsx:263-267 | re-joining the parsed steps, as Cancel does, leaves the parsed steps unchanged |
| Item.StepsRoundTrip | src/components/task-item.tsx:39-61 | steps whose renderings are clean lines survive rendering and parsing unchanged |
| Item.DisplayTitle | src/components/task-item.tsx:161 | the headline is `enhanced_title` whenever it is present, even empty, and otherwise the title |
| Item.DisplayTitleChoice | src/components/task-item.tsx:161-166 | the headline is the non-empty enhanced title when the "(Original: …)" line is shown. Otherwise it is the title, or empty for an empty enhanced title |
| Item.NoteEmail | src/components/task-item.tsx:120 | a note is sent with the task's `user_email` when present, and otherwise with `test@example.com` |
| Item.TaskItem.constructor | src/components/task-item.tsx:23-45 | the card starts from the task's title, completion and rendered steps, not editing, with no note, the dialog closed and not loading |
| Item.TaskItem.ReceiveTask | src/components/task-item.tsx:32-56 | a new task prop is adopted with its title and completion. The steps text is re-rendered only when the steps changed |
| Item.TaskItem.ToggleDone | src/components/task-item.tsx:72-82 | sends the new value and shows it. Only a thrown request rolls it back. Every settled request asks for a reload |
| Item.TaskItem.StartEditing | src/components/task-item.tsx:240 | the pencil button starts editing |
| Item.TaskItem.EditTitle | src/components/task-item.tsx:170 | the title input sets the title |
| Item.TaskItem.EditStepsText | src/components/task-item.tsx:221 | the steps editor sets the text |
| Item.TaskItem.SaveEdits | src/components/task-item.tsx:84-93 | sends the title and the parsed steps. Editing stops unless the request throws. `loading` ends false |
| Item.TaskItem.Cancel | src/components/task-item.tsx:263-267 | stops editing, restores the task's title, and rewrites the text as the parsed steps joined by newlines, which keeps the parsed steps |
| Item.TaskItem.OpenNoteDialog | src/components/task-item.tsx:228 | the "Add note" button opens the dialog |
| Item.TaskItem.CloseNoteDialog | src/components/task-item.tsx:290 | the dialog's Cancel closes it |
| Item.TaskItem.EditNote | src/components/task-item.tsx:287 | the text area sets the note |
| Item.TaskItem.SubmitNote | src/components/task-item.tsx:111-146 | a blank note sends nothing and changes nothing. Otherwise it sends the note with the task's email or the placeholder. Only a 2xx reply clears the note, closes the dialog, adopts the returned task (re-rendering changed steps) and asks for a reload. `loading` ends false |
| Item.TaskItem.Delete | src/components/task-item.tsx:95-109 | nothing happens without confirmation. A 2xx DELETE reports the task's id as deleted. Any failure asks for a reload |

## Left out

- TasksRoute.List: the own-tasks branch (src/app/api/tasks/route.ts:112)
  filters with the corrected ownership test. For a viewer without an
  email, the query as written also returns rows whose `user_email` is the
  text `undefined`; that behaviour is modelled by
  TasksRoute.OwnTasksAsQueried, and TasksRoute.ListOwnIsQueryWithEmail
  shows the two agree whenever the viewer has an email.

- The Supabase client, cookies, environment lookup, `fetch` and `alert` are
  not modelled as code. Their results are parameters: the query outcome,
  `AuthResult`, the `ENHANCE_ON_CREATE` value, and the replies of the
  enhancement workflow and of the card's and board's requests.
- Logging is left out. This includes the diagnostic queries of the
  `includeWA` branch (src/app/api/tasks/route.ts:63-89), whose results are
  only logged.
- The 30-second polling, the mount effect and the `AbortController` of the
  board are left out. They are timers and cleanup, with no state to model.
- Concurrency between handlers is modelled only as far as `add` goes. It is
  split at its request into `BeginAdd` and `FinishAdd`, so a second `add`
  while the first is pending is visible. Other interleavings are not
  modelled.
- The per-task endpoints (`src/app/api/tasks/[id]/route.ts`,
  `src/app/api/tasks/[id]/note/route.ts`), the enhancement route, the chat
  and WhatsApp routes, and the middleware are not part of this model. The
  card's requests to them appear only as their replies.
- Item.StepText: an object step's `text` is taken as a string or as
  absent. A `text` of another kind (a number, a boolean, an object), which
  `join` would turn into text such as `3`, `false` or `[object Object]`,
  is not representable.
- Item.StepsText: the text is described only for steps whose renderings
  are on one line. A rendering that contains a newline is joined as it is,
  and the contract does not say how such text splits back.
- `JSON.stringify` of a step is not modelled. An object step carries its
  JSON text as a given string.
- TasksRoute.Enhanced: an `enhanced_title` that is truthy but not a string
  is not modelled. The reply's `enhanced_title` is taken as a string or as
  absent.
- TasksRoute.Lower: only ASCII letters are lowered. Other characters are
  kept as they are.
- Lists.SortDesc: `created_at` is an integer timestamp rather than the
  ISO text the database compares. The order among rows with equal
  timestamps is not promised.
- Board.NormalizePayload: an object whose `data` is neither absent, `null`
  nor an array is not representable. The board would store that value as
  the list as it is (src/components/task-board.tsx:29).
- TasksRoute.Respond: a `getUser` call or an insert that throws rather than
  returning an error (src/app/api/tasks/route.ts:182, 230) answers 500
  with the exception's message (lines 234-235). `AuthResult` and the
  insert's outcome carry only returned errors, so that path is not
  modelled.
- PostgREST's parsing of reserved characters (`,`, `.`, `(`) inside the
  interpolated `or` filter is not modelled. Only the `undefined` rendering
  of an absent email is.
- The task type's other fields (`description`, `status`,
  `ai_suggestions`, `notes_count`, `updated_at`) are left out. The core
  neither reads nor writes them.
- The task type declares `user_id` as required. WhatsApp rows have no
  owner, so the model keeps it optional.
- A `steps` column that is `null` or absent is modelled as one value,
  "not an array". Both render as empty text.
- React compares effect dependencies by identity.
  Item.TaskItem.ReceiveTask takes every array of steps as a change and a
  non-array as unchanged when it equals the one before.
- The collapsible section's `open` state and the rendering of notes are
  display only and are not modelled.

## Findings

| source | as written | input that shows it | evidently intended | confidence | as-written member | corrected member |
|---|---|---|---|---|---|---|
| src/app/api/tasks/route.ts:112 | the own-tasks query interpolates `${user.email}` into `user_email.eq.…`, so an absent email becomes the text `undefined` | a signed-in user `u1` with no email, and a row with `user_id` `u2` and `user_email` `"undefined"` | match by email only when the user has one, as the `includeWA` branch (lines 92-96) does; then the `includeWA` listing contains the own listing | not executed | TasksRoute.OwnTasksAsQueriedLeaksUndefinedEmail | TasksRoute.ListIncludeWAIsSuperset |
