/** The editor-side rules of the application (notetui/app.py): finishing the
    task on the cursor line, saving the editor to the current day, and the
    save-then-load sequence that runs whenever the viewed day changes. */
module NoteApp {
  import opened Wrappers
  import opened Text
  import opened Dates
  import opened Notes
  import opened Todos

  /** What `action_finish_todo_on_line` does with one cursor row. */
  datatype FinishOutcome =
    | OutOfRange
    | NotHeading
    | AlreadyFinished
    | Finished(text: string, taskLabel: string)

  /** The rewrite of the editor text for a cursor on `row`: a level-2 heading
      whose label is not struck through becomes `indent + "## ~~label~~"`,
      even when the label is empty. */
  function FinishTodoOnLine(text: string, row: int): FinishOutcome
  {
    var lines := Split(text);
    if !(0 <= row < |lines|) then OutOfRange
    else
      var s := Strip(lines[row]);
      if !IsTaskHeading(s) then NotHeading
      else if IsStruck(Label(s)) then AlreadyFinished
      else Finished(Join(lines[row := StrikeLine(lines[row], Label(s))]), Label(s))
  }

  /** A rewrite changes exactly the cursor row: the other lines and the line count stay as they were. */
  lemma FinishChangesOnlyRow(text: string, row: int)
    requires FinishTodoOnLine(text, row).Finished?
    ensures var lines := Split(text);
      && IsTaskHeading(Strip(lines[row]))
      && FinishTodoOnLine(text, row).taskLabel == Label(Strip(lines[row]))
      && Split(FinishTodoOnLine(text, row).text) == lines[row := StrikeLine(lines[row], FinishTodoOnLine(text, row).taskLabel)]
      && |Split(FinishTodoOnLine(text, row).text)| == |lines|
      && forall j :: 0 <= j < |lines| && j != row ==> Split(FinishTodoOnLine(text, row).text)[j] == lines[j]
  {
    var lines := Split(text);
    var lab := Label(Strip(lines[row]));
    StrikeLineNoBreak(lines[row], lab);
    var updated := lines[row := StrikeLine(lines[row], lab)];
    assert NoLineBreaks(updated);
    SplitJoin(updated);
  }

  /** Finishing the same row again reports it as already finished. */
  lemma FinishTwice(text: string, row: int)
    requires FinishTodoOnLine(text, row).Finished?
    ensures FinishTodoOnLine(FinishTodoOnLine(text, row).text, row) == AlreadyFinished
  {
    FinishChangesOnlyRow(text, row);
    var lines := Split(text);
    StrikeLineLabel("x.md", lines[row], FinishTodoOnLine(text, row).taskLabel, row);
  }

  /** Unlike the scan, the cursor rule rewrites a heading with an empty label. */
  lemma FinishEmptyLabel()
    ensures TodoAt("01-Jan-2026.md", "##", 0) == None
    ensures FinishTodoOnLine("##", 0) == Finished("## ~~~~", "")
  {
    assert Split("##") == ["##"] by { SplitNoBreak("##"); }
    assert LStrip("##") == "##";
    assert RStrip("##") == "##";
    assert Strip("##") == "##";
    assert ("##")[2..] == "";
    assert Label("##") == "";
    assert Indent("##") == "";
  }

  class App {
    const dir: Directory
    const manager: NoteManager
    const todoList: TodoList
    var editorText: string
    var currentDate: Date
    var previousDate: Option<Date>

    ghost predicate Valid()
      reads this, dir, manager, todoList
    {
      && manager.dir == dir
      && todoList.dir == dir
      && dir.present
      && ValidDate(currentDate)
      && (previousDate.Some? ==> ValidDate(previousDate.value))
    }

    /** The mounted application: the editor shows `today`'s note, the
        previous-date tracker is `today` and the todo index has been scanned. */
    constructor (dir: Directory, today: Date)
      requires ValidDate(today)
      modifies dir
      ensures Valid() && this.dir == dir
      ensures dir.files == old(dir.files)
      ensures currentDate == today && previousDate == Some(today)
      ensures editorText == ReadNote(dir.files, today)
      ensures todoList.todos == Scan(true, dir.files)
    {
      this.dir := dir;
      var m := new NoteManager(dir);
      var t := new TodoList(dir);
      manager := m;
      todoList := t;
      currentDate := today;
      previousDate := Some(today);
      var content := m.GetNoteContent(today);
      editorText := content;
      new;
      todoList.ScanNotes();
    }

    /** `_save_current_note`: the editor text is stored under the current day,
        that day becomes the previous-date tracker, and the index is rescanned. */
    method SaveCurrentNote()
      requires Valid()
      modifies this, dir, todoList
      ensures Valid()
      ensures dir.files == WriteNote(old(dir.files), currentDate, editorText)
      ensures previousDate == Some(currentDate)
      ensures editorText == old(editorText) && currentDate == old(currentDate)
      ensures todoList.todos == Scan(true, dir.files)
    {
      var content := editorText;
      manager.SaveNoteContent(currentDate, content);
      previousDate := Some(currentDate);
      todoList.ScanNotes();
    }

    /** Setting `current_date` and its watcher `watch_current_date`: the editor
        text is first stored under the previous day (when there is one) and the
        index rescanned, then the editor is loaded with the new day's note. */
    method WatchCurrentDate(newDate: Date)
      requires Valid() && ValidDate(newDate)
      modifies this, dir, todoList
      ensures Valid()
      ensures currentDate == newDate && previousDate == Some(newDate)
      ensures old(previousDate).Some? ==>
        && dir.files == WriteNote(old(dir.files), old(previousDate).value, old(editorText))
        && todoList.todos == Scan(true, dir.files)
      ensures old(previousDate).None? ==> dir.files == old(dir.files) && todoList.todos == old(todoList.todos)
      ensures editorText == ReadNote(dir.files, newDate)
    {
      currentDate := newDate;
      if previousDate.Some? {
        var content := editorText;
        manager.SaveNoteContent(previousDate.value, content);
        todoList.ScanNotes();
      }
      editorText := manager.GetNoteContent(newDate);
      previousDate := Some(newDate);
    }

    /** `action_finish_todo_on_line` for the cursor on `cursorRow`: a rewrite
        replaces the editor text and saves it; any other outcome changes nothing. */
    method ActionFinishTodoOnLine(cursorRow: int) returns (outcome: FinishOutcome)
      requires Valid()
      modifies this, dir, todoList
      ensures Valid()
      ensures outcome == FinishTodoOnLine(old(editorText), cursorRow)
      ensures outcome.Finished? ==>
        && editorText == outcome.text
        && dir.files == WriteNote(old(dir.files), currentDate, outcome.text)
        && previousDate == Some(currentDate)
        && todoList.todos == Scan(true, dir.files)
      ensures !outcome.Finished? ==>
        && editorText == old(editorText)
        && dir.files == old(dir.files)
        && previousDate == old(previousDate)
        && todoList.todos == old(todoList.todos)
      ensures currentDate == old(currentDate)
    {
      outcome := FinishTodoOnLine(editorText, cursorRow);
      if outcome.Finished? {
        editorText := outcome.text;
        SaveCurrentNote();
      }
    }
  }

  /** Leaving a day for another and coming back shows the text the editor held when it left. */
  lemma SwitchAwayAndBack(files: map<string, string>, d: Date, e: Date, text: string, otherText: string)
    requires ValidDate(d) && ValidDate(e) && d != e
    ensures ReadNote(WriteNote(WriteNote(files, d, text), e, otherText), d) == text
  {
    ReadAfterWrite(WriteNote(files, d, text), e, otherText, d);
    ReadAfterWrite(files, d, text, d);
  }
}
