/** One task card: its steps shown as editable text, the completion
    checkbox, the edit/cancel cycle, the note dialog and deletion. The
    text codec is a set of functions; the card's state (`completedLocal`,
    `editing`, `title`, `stepsText`, `note`, `noteOpen`, `loading`,
    `currentTask`) becomes the fields of a class whose handlers are
    methods, with the network replies they wait for as parameters. */
module Item {
  import opened Options
  import opened Lists
  import opened Text
  import opened Tasks

  // ---------------------------------------------------------------------
  // Steps as text

  /** How one step is rendered:
      `typeof s === 'string' ? s : s?.text ?? JSON.stringify(s)`. */
  function StepText(s: Step): (r: string)
    ensures s.StringStep? ==> r == s.s
    ensures s.ObjectStep? ==> r == if s.text.Some? then s.text.value else s.json
    ensures s.OtherStep? ==> r == s.json
  {
    match s
    case StringStep(text) => text
    case ObjectStep(text, json) => text.GetOr(json)
    case OtherStep(json) => json
  }

  /** The rendering of every step, in order. */
  function StepTexts(items: seq<Step>): (r: seq<string>)
    ensures |r| == |items| && forall i :: 0 <= i < |items| ==> r[i] == StepText(items[i])
  {
    if items == [] then [] else [StepText(items[0])] + StepTexts(items[1..])
  }

  /** The text the steps editor starts with: the rendered steps, one per
      line, or nothing when `steps` is not an array. */
  function StepsText(f: StepsField): (r: string)
    ensures f.NotAList? ==> r == ""
    ensures f.StepList? && f.items == [] ==> r == ""
    ensures f.StepList? && |f.items| >= 1 &&
            (forall i :: 0 <= i < |f.items| ==> '\n' !in StepText(f.items[i])) ==>
              Split(r, '\n') == StepTexts(f.items)
  {
    match f
    case NotAList => ""
    case StepList(items) =>
      var lines := StepTexts(items);
      if |items| >= 1 && forall i :: 0 <= i < |items| ==> '\n' !in StepText(items[i]) then
        SplitJoin(lines, '\n');
        Join(lines, '\n')
      else
        Join(lines, '\n')
  }

  /** `lines.map(s => s.trim())`. */
  function TrimAll(lines: seq<string>): (r: seq<string>)
    ensures |r| == |lines| && forall i :: 0 <= i < |lines| ==> r[i] == Trim(lines[i])
  {
    if lines == [] then [] else [Trim(lines[0])] + TrimAll(lines[1..])
  }

  /** Trimmed lines are trimmed, and trimming keeps a line on one line. */
  lemma TrimAllClean(lines: seq<string>)
    requires forall line :: line in lines ==> '\n' !in line
    ensures forall line :: line in TrimAll(lines) ==> Trimmed(line) && '\n' !in line
  {
    var r := TrimAll(lines);
    forall line | line in r ensures Trimmed(line) && '\n' !in line {
      var i :| 0 <= i < |r| && r[i] == line;
      assert lines[i] in lines;
      assert '\n' !in lines[i];
      assert line == Trim(lines[i]);
      TrimSlice(lines[i]);
    }
  }

  /** A line worth keeping: `filter(Boolean)` keeps the non-empty strings. */
  predicate NonEmpty(line: string) {
    line != ""
  }

  /** A parsed step: non-empty, trimmed and on one line. */
  predicate CleanLine(line: string) {
    line != "" && Trimmed(line) && '\n' !in line
  }

  /** `stepsArray`: the lines of the editor's text, trimmed, without the
      empty ones. */
  function ParseSteps(text: string): (r: seq<string>)
    ensures forall line :: line in r ==> CleanLine(line)
  {
    SplitPieces(text, '\n');
    TrimAllClean(Split(text, '\n'));
    Filter(TrimAll(Split(text, '\n')), NonEmpty)
  }

  /** Clean lines joined by newlines parse back to themselves. */
  lemma ParseJoin(lines: seq<string>)
    requires forall line :: line in lines ==> CleanLine(line)
    ensures ParseSteps(Join(lines, '\n')) == lines
  {
    if lines == [] {
      assert Split("", '\n') == [""];
      assert TrimAll([""]) == [""];
      assert Filter([""], NonEmpty) == [];
    } else {
      SplitJoin(lines, '\n');
      assert TrimAll(lines) == lines by {
        forall i | 0 <= i < |lines| ensures Trim(lines[i]) == lines[i] {
          assert lines[i] in lines;
          TrimTrimmed(lines[i]);
        }
      }
      FilterKeepsAll(lines, NonEmpty);
    }
  }

  /** Cancel stores `stepsArray.join('\n')` as the new text; parsing that
      text gives the same steps, so Cancel never changes the steps and a
      second Cancel changes nothing. */
  lemma {:induction false} CancelKeepsSteps(text: string)
    ensures ParseSteps(Join(ParseSteps(text), '\n')) == ParseSteps(text)
  {
    ParseJoin(ParseSteps(text));
  }

  /** Steps whose renderings are clean lines survive the trip through the
      editor unchanged. */
  lemma StepsRoundTrip(items: seq<Step>)
    requires forall i :: 0 <= i < |items| ==> CleanLine(StepText(items[i]))
    ensures ParseSteps(StepsText(StepList(items))) == StepTexts(items)
  {
    var lines := StepTexts(items);
    assert forall line :: line in lines ==> CleanLine(line);
    ParseJoin(lines);
  }

  // ---------------------------------------------------------------------
  // Title display

  /** The headline: `enhanced_title ?? title`. */
  function DisplayTitle(t: Task): (r: string)
    ensures t.enhancedTitle.Some? ==> r == t.enhancedTitle.value
    ensures t.enhancedTitle.None? ==> r == t.title
  {
    t.enhancedTitle.GetOr(t.title)
  }

  /** The "(Original: ...)" line is shown when `enhanced_title` is truthy. */
  predicate ShowsOriginal(t: Task) {
    t.enhancedTitle.Some? && t.enhancedTitle.value != ""
  }

  /** The headline is the original title unless a non-empty enhanced title
      is shown above the original; an empty enhanced title shows an empty
      headline and no original line. */
  lemma DisplayTitleChoice(t: Task)
    ensures ShowsOriginal(t) ==> DisplayTitle(t) == t.enhancedTitle.value && DisplayTitle(t) != ""
    ensures !ShowsOriginal(t) ==> DisplayTitle(t) == t.title || (DisplayTitle(t) == "" && t.enhancedTitle == Some(""))
  {
  }

  // ---------------------------------------------------------------------
  // The card

  /** The outcome of `patch`: the request settles with some status (a
      failure status is only logged), or the fetch throws. */
  datatype PatchReply = PatchAnswered(ok: bool) | PatchThrew

  /** The bodies `patch` sends. */
  datatype PatchBody = CompletedPatch(completed: bool) | EditPatch(title: string, steps: seq<string>)

  /** The body of the note request. */
  datatype NoteRequest = NoteRequest(note: string, userEmail: string)

  /** The outcome of the note request: a throw (fetch or reading the JSON),
      or a status with the reply's `task`, if any. */
  datatype NoteReply = NoteThrew | NoteAnswered(ok: bool, task: Option<Task>)

  /** The outcome of the DELETE request. */
  datatype DeleteReply = DeleteThrew | DeleteAnswered(ok: bool)

  /** What the card tells its board: nothing, `onChanged()` (reload) or
      `onDeleted(id)`. */
  datatype Notify = NoNotice | Changed | Deleted(id: string)

  /** React reruns the steps effect when `currentTask.steps` is a
      different value: every array arriving from the server is a new one,
      a non-array compares equal to the non-array before it. */
  predicate StepsChanged(before: StepsField, after: StepsField) {
    after.StepList? || before != after
  }

  /** The email a note is sent with: the task's, or a placeholder. */
  function NoteEmail(t: Task): (r: string)
    ensures t.userEmail.Some? ==> r == t.userEmail.value
    ensures t.userEmail.None? ==> r == "test@example.com"
  {
    t.userEmail.GetOr("test@example.com")
  }

  class TaskItem {
    var currentTask: Task
    var title: string
    var editing: bool
    var stepsText: string
    var completedLocal: bool
    var note: string
    var noteOpen: bool
    var loading: bool

    /** The card's initial state for `task`. */
    constructor (task: Task)
      ensures currentTask == task && title == task.title && completedLocal == task.completed
      ensures stepsText == StepsText(task.steps)
      ensures !editing && note == "" && !noteOpen && !loading
    {
      currentTask, title, completedLocal := task, task.title, task.completed;
      stepsText := StepsText(task.steps);
      editing, note, noteOpen, loading := false, "", false, false;
    }

    /** The effects on a new `task` prop: the card adopts the task, its
        title and completion, and re-renders the steps text if they changed. */
    method ReceiveTask(task: Task)
      modifies this`currentTask, this`title, this`completedLocal, this`stepsText
      ensures currentTask == task && title == task.title && completedLocal == task.completed
      ensures stepsText == if StepsChanged(old(currentTask.steps), task.steps)
                           then StepsText(task.steps) else old(stepsText)
    {
      var before := currentTask.steps;
      currentTask, title, completedLocal := task, task.title, task.completed;
      if StepsChanged(before, task.steps) {
        stepsText := StepsText(task.steps);
      }
    }

    /** `toggleDone`: shows the new value at once and rolls back only when
        the request throws; a failure status is not a throw. */
    method ToggleDone(checked: bool, reply: PatchReply) returns (body: PatchBody, notice: Notify)
      modifies this`completedLocal
      ensures body == CompletedPatch(checked)
      ensures completedLocal == if reply.PatchThrew? then old(completedLocal) else checked
      ensures notice == if reply.PatchThrew? then NoNotice else Changed
    {
      var prev := completedLocal;
      completedLocal := checked;
      body := CompletedPatch(checked);
      if reply.PatchThrew? {
        completedLocal := prev;
        notice := NoNotice;
      } else {
        notice := Changed;
      }
    }

    /** The pencil button. */
    method StartEditing()
      modifies this`editing
      ensures editing
    {
      editing := true;
    }

    /** The title input's `onChange` while editing. */
    method EditTitle(text: string)
      modifies this`title
      ensures title == text
    {
      title := text;
    }

    /** The steps editor's `onChange`. */
    method EditStepsText(text: string)
      modifies this`stepsText
      ensures stepsText == text
    {
      stepsText := text;
    }

    /** `saveEdits`: sends the title and the parsed steps; leaves editing
        unless the request throws. */
    method SaveEdits(reply: PatchReply) returns (body: PatchBody, notice: Notify)
      modifies this`editing, this`loading
      ensures body == EditPatch(title, ParseSteps(stepsText))
      ensures editing == (old(editing) && reply.PatchThrew?)
      ensures notice == if reply.PatchThrew? then NoNotice else Changed
      ensures !loading
    {
      loading := true;
      body := EditPatch(title, ParseSteps(stepsText));
      if reply.PatchThrew? {
        notice := NoNotice;
      } else {
        editing := false;
        notice := Changed;
      }
      loading := false;
    }

    /** The editor's Cancel: restores the title and rewrites the steps text
        as the parsed steps, one per line, which keeps the parsed steps. */
    method Cancel()
      modifies this`editing, this`title, this`stepsText
      ensures !editing && title == currentTask.title
      ensures stepsText == Join(ParseSteps(old(stepsText)), '\n')
      ensures ParseSteps(stepsText) == ParseSteps(old(stepsText))
    {
      var steps := ParseSteps(stepsText);
      editing := false;
      title := currentTask.title;
      stepsText := Join(steps, '\n');
      CancelKeepsSteps(old(stepsText));
    }

    /** The "Add note" button. */
    method OpenNoteDialog()
      modifies this`noteOpen
      ensures noteOpen
    {
      noteOpen := true;
    }

    /** The note dialog's Cancel button: closes the dialog and keeps the
        note typed so far. */
    method CloseNoteDialog()
      modifies this`noteOpen
      ensures !noteOpen
    {
      noteOpen := false;
    }

    /** The note text area's `onChange`. */
    method EditNote(text: string)
      modifies this`note
      ensures note == text
    {
      note := text;
    }

    /** `submitNote`: a blank note sends nothing and changes nothing. A
        failed or thrown request keeps the note and the dialog. A success
        clears the note, closes the dialog and adopts the returned task,
        if there is one. */
    method SubmitNote(reply: NoteReply) returns (sent: Option<NoteRequest>, notice: Notify)
      modifies this`note, this`noteOpen, this`loading, this`currentTask, this`stepsText
      ensures sent == if Trim(old(note)) == "" then None
                      else Some(NoteRequest(old(note), NoteEmail(old(currentTask))))
      ensures sent.None? ==> unchanged(this)
      ensures sent.Some? ==> !loading
      ensures var done := sent.Some? && reply.NoteAnswered? && reply.ok;
              && note == (if done then "" else old(note))
              && (done ==> !noteOpen) && (!done ==> noteOpen == old(noteOpen))
              && currentTask == (if done && reply.task.Some? then reply.task.value else old(currentTask))
              && stepsText == (if done && reply.task.Some? &&
                                  StepsChanged(old(currentTask.steps), reply.task.value.steps)
                               then StepsText(reply.task.value.steps) else old(stepsText))
              && notice == (if done then Changed else NoNotice)
    {
      if Trim(note) == "" {
        return None, NoNotice;
      }
      loading := true;
      sent := Some(NoteRequest(note, NoteEmail(currentTask)));
      notice := NoNotice;
      if reply.NoteAnswered? && reply.ok {
        note := "";
        noteOpen := false;
        if reply.task.Some? {
          var before := currentTask.steps;
          currentTask := reply.task.value;
          if StepsChanged(before, currentTask.steps) {
            stepsText := StepsText(currentTask.steps);
          }
        }
        notice := Changed;
      }
      loading := false;
    }

    /** `del`: after confirmation, a successful DELETE tells the board the
        task is gone; any failure asks it to reload instead. */
    method Delete(confirmed: bool, reply: DeleteReply) returns (notice: Notify)
      ensures !confirmed ==> notice == NoNotice
      ensures confirmed && reply.DeleteAnswered? && reply.ok ==> notice == Deleted(currentTask.id)
      ensures confirmed && !(reply.DeleteAnswered? && reply.ok) ==> notice == Changed
    {
      if !confirmed {
        return NoNotice;
      }
      if reply.DeleteAnswered? && reply.ok {
        return Deleted(currentTask.id);
      }
      return Changed;
    }
  }
}
