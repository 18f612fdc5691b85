/** The todo index (notetui/todolist.py): a task is a level-2 heading line of a
    day file; the index lists the open ones across all files, and completing a
    task rewrites the first heading with its label as a struck-through heading. */
module Todos {
  import opened Wrappers
  import opened Text
  import opened Dates
  import opened Notes

  /** One entry of the index: label, file stem, file name and 0-based line number. */
  datatype Todo = Todo(text: string, dateStr: string, filePath: string, lineNumber: int)

  /** A stripped line that starts with exactly two `#`. */
  predicate IsTaskHeading(stripped: string)
  {
    "##" <= stripped && !("###" <= stripped)
  }

  /** The label of a stripped heading line: the text after `##`, stripped, with trailing `#` removed, stripped again. */
  function Label(stripped: string): string
    requires "##" <= stripped
  {
    Strip(RStripChar(Strip(stripped[2..]), '#'))
  }

  /** A label written as `~~...~~`, that is, a finished task. */
  predicate IsStruck(text: string)
  {
    "~~" <= text && EndsWith(text, "~~")
  }

  /** The open task on line `k` of file `name`, if that line holds one. */
  function TodoAt(name: string, line: string, k: int): Option<Todo>
    requires IsMdName(name)
  {
    var s := Strip(line);
    if IsTaskHeading(s) && !IsStruck(Label(s)) && Label(s) != "" then Some(Todo(Label(s), Stem(name), name, k))
    else None
  }

  function OptionToSeq<T>(o: Option<T>): seq<T>
  {
    if o.Some? then [o.value] else []
  }

  /** The open tasks among the first `k` lines of file `name`, in line order. */
  function LinesTodos(name: string, lines: seq<string>, k: int): seq<Todo>
    requires IsMdName(name) && 0 <= k <= |lines|
    decreases k
  {
    if k == 0 then [] else LinesTodos(name, lines, k - 1) + OptionToSeq(TodoAt(name, lines[k - 1], k - 1))
  }

  /** The open tasks of one file, in line order. */
  function FileTodos(name: string, content: string): seq<Todo>
    requires IsMdName(name)
  {
    LinesTodos(name, Split(content), |Split(content)|)
  }

  /** `t` is the open task found on its own line of its own file. */
  predicate IsOpenTaskAt(files: map<string, string>, t: Todo)
  {
    && t.filePath in files
    && IsMdName(t.filePath)
    && 0 <= t.lineNumber < |Split(files[t.filePath])|
    && TodoAt(t.filePath, Split(files[t.filePath])[t.lineNumber], t.lineNumber) == Some(t)
  }

  /** The todos of the first `k` lines are exactly the open tasks on those lines,
      each names the file, and their line numbers increase. */
  lemma {:induction false} LinesTodosFacts(name: string, lines: seq<string>, k: int)
    requires IsMdName(name) && 0 <= k <= |lines|
    ensures forall t :: t in LinesTodos(name, lines, k) <==>
      0 <= t.lineNumber < k && TodoAt(name, lines[t.lineNumber], t.lineNumber) == Some(t)
    ensures forall i, j :: 0 <= i < j < |LinesTodos(name, lines, k)| ==>
      LinesTodos(name, lines, k)[i].lineNumber < LinesTodos(name, lines, k)[j].lineNumber
    decreases k
  {
    if k > 0 {
      LinesTodosFacts(name, lines, k - 1);
      var prev := LinesTodos(name, lines, k - 1);
      var o := TodoAt(name, lines[k - 1], k - 1);
      assert LinesTodos(name, lines, k) == prev + OptionToSeq(o);
      forall t ensures t in LinesTodos(name, lines, k) <==>
        0 <= t.lineNumber < k && TodoAt(name, lines[t.lineNumber], t.lineNumber) == Some(t)
      {
        if t.lineNumber == k - 1 && TodoAt(name, lines[k - 1], k - 1) == Some(t) {
          assert t in OptionToSeq(o);
        }
      }
      forall i | 0 <= i < |prev|
        ensures prev[i].lineNumber < k - 1
      {
        assert prev[i] in prev;
      }
    }
  }

  /** A greatest name of a non-empty set exists. */
  lemma GreatestExists(names: set<string>)
    requires names != {}
    ensures exists n :: n in names && forall m :: m in names && m != n ==> StrLess(m, n)
    decreases names
  {
    var x :| x in names;
    if names != {x} {
      GreatestExists(names - {x});
      var g :| g in names - {x} && forall m :: m in names - {x} && m != g ==> StrLess(m, g);
      if StrLess(x, g) {
        assert forall m :: m in names && m != g ==> StrLess(m, g);
      } else {
        StrLessTotal(x, g);
        forall m | m in names && m != x
          ensures StrLess(m, x)
        {
          if m != g {
            StrLessTransitive(m, g, x);
          }
        }
      }
    } else {
      assert forall m :: m in names && m != x ==> StrLess(m, x);
    }
  }

  /** The name `sorted(..., reverse=True)` yields first. */
  ghost function Greatest(names: set<string>): (n: string)
    requires names != {}
    ensures n in names && forall m :: m in names && m != n ==> StrLess(m, n)
  {
    GreatestExists(names);
    var n :| n in names && forall m :: m in names && m != n ==> StrLess(m, n); n
  }

  lemma GreatestUnique(names: set<string>, n: string)
    requires n in names && forall m :: m in names && m != n ==> StrLess(m, n)
    ensures n == Greatest(names)
  {
    var g := Greatest(names);
    if n != g {
      assert StrLess(n, g) && StrLess(g, n);
      StrLessTransitive(n, g, n);
      StrLessIrreflexive(n);
    }
  }

  /** The files `*.md` matches. */
  function MdNames(files: map<string, string>): set<string>
  {
    set n | n in files && IsMdName(n)
  }

  /** The open tasks of the named files, file by file in descending name order. */
  ghost function ScanNames(files: map<string, string>, names: set<string>): seq<Todo>
    requires forall n :: n in names ==> n in files && IsMdName(n)
    decreases names
  {
    if names == {} then []
    else
      var n := Greatest(names);
      FileTodos(n, files[n]) + ScanNames(files, names - {n})
  }

  /** The index `scan_notes` builds: nothing when the directory is missing. */
  ghost function Scan(present: bool, files: map<string, string>): seq<Todo>
  {
    if present then ScanNames(files, MdNames(files)) else []
  }

  /** Every task the scan of `names` lists is an open task of one of those files, and every such task is listed. */
  lemma {:induction false} ScanNamesMembers(files: map<string, string>, names: set<string>)
    requires forall n :: n in names ==> n in files && IsMdName(n)
    ensures forall t :: t in ScanNames(files, names) <==> t.filePath in names && IsOpenTaskAt(files, t)
    decreases names
  {
    if names != {} {
      var n := Greatest(names);
      ScanNamesMembers(files, names - {n});
      LinesTodosFacts(n, Split(files[n]), |Split(files[n])|);
    }
  }

  /** The index lists exactly the open tasks of the day files. */
  lemma ScanMembers(files: map<string, string>, t: Todo)
    ensures t in Scan(true, files) <==> IsOpenTaskAt(files, t)
  {
    ScanNamesMembers(files, MdNames(files));
  }

  /** `a` is listed before `b`: a greater file name, or the same file and an earlier line. */
  predicate ListedBefore(a: Todo, b: Todo)
  {
    StrLess(b.filePath, a.filePath) || (a.filePath == b.filePath && a.lineNumber < b.lineNumber)
  }

  /** The index is ordered by descending file name, then by ascending line. */
  lemma {:induction false} ScanNamesOrdered(files: map<string, string>, names: set<string>)
    requires forall n :: n in names ==> n in files && IsMdName(n)
    ensures forall i, j :: 0 <= i < j < |ScanNames(files, names)| ==>
      ListedBefore(ScanNames(files, names)[i], ScanNames(files, names)[j])
    decreases names
  {
    if names != {} {
      var n := Greatest(names);
      var a := FileTodos(n, files[n]);
      var b := ScanNames(files, names - {n});
      ScanNamesOrdered(files, names - {n});
      ScanNamesMembers(files, names - {n});
      LinesTodosFacts(n, Split(files[n]), |Split(files[n])|);
      var s := a + b;
      forall i, j | 0 <= i < j < |s|
        ensures ListedBefore(s[i], s[j])
      {
        if j < |a| {
          assert s[i] == a[i] && s[j] == a[j];
          assert a[i] in a && a[j] in a;
        } else if i >= |a| {
          assert s[i] == b[i - |a|] && s[j] == b[j - |a|];
        } else {
          assert s[i] == a[i] && a[i] in a;
          assert s[j] == b[j - |a|] && b[j - |a|] in b;
        }
      }
    }
  }

  lemma ScanOrdered(files: map<string, string>)
    ensures forall i, j :: 0 <= i < j < |Scan(true, files)| ==> ListedBefore(Scan(true, files)[i], Scan(true, files)[j])
  {
    ScanNamesOrdered(files, MdNames(files));
  }

  /** Descending name order is not descending date order: the note of
      30 November 2025 is listed after that of 31 October 2025. */
  lemma NameOrderIsNotDateOrder()
    ensures NotePath(Date(2025, 11, 30)) == "30-Nov-2025.md"
    ensures NotePath(Date(2025, 10, 31)) == "31-Oct-2025.md"
    ensures StrLess("30-Nov-2025.md", "31-Oct-2025.md")
    ensures Ordinal(Date(2025, 10, 31)) < Ordinal(Date(2025, 11, 30))
  {
  }

  /** The synthesised note of a day without a file holds no task. */
  lemma DefaultContentHasNoTasks(d: Date)
    requires ValidDate(d)
    ensures FileTodos(NotePath(d), DefaultContent(d)) == []
  {
    var name := NotePath(d);
    NotePathStem(d);
    var h := DefaultHeader(d);
    assert h[0] == '#' && h[1] == ' ';
    assert h[|h| - 1] == Pad4(d.year)[3];
    assert LStrip(h) == h;
    assert RStrip(h) == h;
    assert TodoAt(name, h, 0) == None;
    assert TodoAt(name, "", 1) == None;
    assert TodoAt(name, "", 2) == None;
    var lines := Split(DefaultContent(d));
    assert lines == [h, "", ""];
    assert LinesTodos(name, lines, 1) == [];
    assert LinesTodos(name, lines, 2) == [];
    assert LinesTodos(name, lines, 3) == [];
  }

  /** The label `line` carries if it is a task heading with that label. */
  predicate MatchesTask(line: string, text: string)
  {
    var s := Strip(line);
    IsTaskHeading(s) && Label(s) == text
  }

  /** The first line at or after `from` that is a task heading labelled `text`. */
  function FirstTaskLine(lines: seq<string>, text: string, from: nat): (r: Option<nat>)
    requires from <= |lines|
    ensures r.Some? ==> from <= r.value < |lines| && MatchesTask(lines[r.value], text)
    ensures r.Some? ==> forall j :: from <= j < r.value ==> !MatchesTask(lines[j], text)
    ensures r.None? ==> forall j :: from <= j < |lines| ==> !MatchesTask(lines[j], text)
    decreases |lines| - from
  {
    if from == |lines| then None
    else if MatchesTask(lines[from], text) then Some(from)
    else FirstTaskLine(lines, text, from + 1)
  }

  /** The struck-through heading that replaces a task line, keeping its indentation. */
  function StrikeLine(line: string, text: string): string
  {
    Indent(line) + "## ~~" + text + "~~"
  }

  /** A struck line is a task heading labelled `~~text~~`: finished, so never
      listed and never matched by its old label again. */
  lemma StrikeLineLabel(name: string, line: string, text: string, k: int)
    requires IsMdName(name)
    ensures Strip(StrikeLine(line, text)) == "## ~~" + text + "~~"
    ensures IsTaskHeading(Strip(StrikeLine(line, text)))
    ensures Label(Strip(StrikeLine(line, text))) == "~~" + text + "~~"
    ensures IsStruck(Label(Strip(StrikeLine(line, text))))
    ensures TodoAt(name, StrikeLine(line, text), k) == None
    ensures !MatchesTask(StrikeLine(line, text), text)
  {
    var body := "## ~~" + text + "~~";
    assert StrikeLine(line, text) == Indent(line) + body;
    LStripAfterSpace(Indent(line), body);
    assert LStrip(body) == body;
    assert RStrip(body) == body by {
      assert body[|body| - 1] == '~';
    }
    var inner := " ~~" + text + "~~";
    assert body[2..] == inner;
    var lab := "~~" + text + "~~";
    assert inner == " " + lab;
    assert LStrip(inner) == LStrip(inner[1..]);
    assert inner[1..] == lab;
    assert LStrip(lab) == lab;
    assert RStrip(lab) == lab by {
      assert lab[|lab| - 1] == '~';
    }
    assert RStripChar(lab, '#') == lab by {
      assert lab[|lab| - 1] == '~';
    }
    assert EndsWith(lab, "~~") by {
      assert lab[|lab| - 2..] == "~~";
    }
  }

  /** `mark_todo_complete` on one file's text: the first heading labelled `text`
      becomes struck through; without one the text is left as it is. */
  function CompleteTask(content: string, text: string): string
  {
    var lines := Split(content);
    match FirstTaskLine(lines, text, 0)
    case None => content
    case Some(k) => Join(lines[k := StrikeLine(lines[k], text)])
  }

  /** A matched label has no line break, so the struck line has none either. */
  lemma StrikeLineNoBreak(line: string, text: string)
    requires '\n' !in line && MatchesTask(line, text)
    ensures '\n' !in StrikeLine(line, text)
  {
    var s := Strip(line);
    StripKeepsChars(line, '\n');
    assert '\n' !in s[2..];
    StripKeepsChars(s[2..], '\n');
    var t := RStripChar(Strip(s[2..]), '#');
    RStripCharSpec(Strip(s[2..]), '#');
    assert '\n' !in t;
    StripKeepsChars(t, '\n');
    assert Indent(line) <= line;
  }

  /** Completing a task changes exactly its line: the lines of the new text are
      the old lines with that one replaced by its struck form. */
  lemma CompleteTaskLines(content: string, text: string, k: nat)
    requires FirstTaskLine(Split(content), text, 0) == Some(k)
    ensures Split(CompleteTask(content, text)) == Split(content)[k := StrikeLine(Split(content)[k], text)]
  {
    var lines := Split(content);
    StrikeLineNoBreak(lines[k], text);
    var updated := lines[k := StrikeLine(lines[k], text)];
    assert NoLineBreaks(updated);
    SplitJoin(updated);
  }

  /** The text changes if and only if a heading with that label exists. */
  lemma CompleteTaskChanges(content: string, text: string)
    ensures CompleteTask(content, text) != content <==> FirstTaskLine(Split(content), text, 0).Some?
  {
    var lines := Split(content);
    match FirstTaskLine(lines, text, 0)
    case None =>
    case Some(k) =>
      CompleteTaskLines(content, text, k);
      StrikeLineLabel("x.md", lines[k], text, 0);
      var updated := lines[k := StrikeLine(lines[k], text)];
      assert updated[k] != lines[k] by {
        assert !MatchesTask(updated[k], text) && MatchesTask(lines[k], text);
      }
  }

  /** After completion in file `path`, a rescan lists every task it listed
      before except the one on the completed line, and nothing new. */
  lemma CompleteRemovesOnlyTarget(files: map<string, string>, path: string, text: string, k: nat, t: Todo)
    requires path in files && FirstTaskLine(Split(files[path]), text, 0) == Some(k)
    ensures t in Scan(true, files[path := CompleteTask(files[path], text)]) <==>
      t in Scan(true, files) && !(t.filePath == path && t.lineNumber == k)
  {
    var files' := files[path := CompleteTask(files[path], text)];
    ScanMembers(files, t);
    ScanMembers(files', t);
    CompleteTaskLines(files[path], text, k);
    if t.filePath == path && t.lineNumber == k && IsMdName(path) {
      StrikeLineLabel(path, Split(files[path])[k], text, k);
    }
  }

  /** The search loop of `mark_todo_complete`: the index of the first line
      that is a task heading labelled `text`, if any. */
  method FindTaskLine(lines: seq<string>, text: string) returns (target: Option<nat>)
    ensures target == FirstTaskLine(lines, text, 0)
  {
    target := None;
    var idx := 0;
    while idx < |lines|
      invariant 0 <= idx <= |lines|
      invariant FirstTaskLine(lines, text, 0) == FirstTaskLine(lines, text, idx)
    {
      if MatchesTask(lines[idx], text) {
        return Some(idx);
      }
      idx := idx + 1;
    }
  }

  /** The body of `scan_notes` for one file: its open tasks, line by line. */
  method FileTodosOf(name: string, content: string) returns (fileTodos: seq<Todo>)
    requires IsMdName(name)
    ensures fileTodos == FileTodos(name, content)
  {
    var lines := Split(content);
    fileTodos := [];
    var i := 0;
    while i < |lines|
      invariant 0 <= i <= |lines|
      invariant fileTodos == LinesTodos(name, lines, i)
    {
      var entry := TodoAt(name, lines[i], i);
      assert LinesTodos(name, lines, i + 1) == fileTodos + OptionToSeq(entry);
      if entry.Some? {
        fileTodos := fileTodos + [entry.value];
      }
      i := i + 1;
    }
  }

  class TodoList {
    const dir: Directory
    var todos: seq<Todo>

    constructor (dir: Directory)
      ensures this.dir == dir && todos == []
    {
      this.dir := dir;
      todos := [];
    }

    /** `scan_notes`: rebuilds the index from the directory. */
    method ScanNotes()
      modifies this
      ensures todos == Scan(dir.present, dir.files)
    {
      if !dir.present {
        todos := [];
        return;
      }
      var files := dir.files;
      var found: seq<Todo> := [];
      var rest := MdNames(files);
      while rest != {}
        invariant forall n :: n in rest ==> n in files && IsMdName(n)
        invariant found + ScanNames(files, rest) == ScanNames(files, MdNames(files))
        decreases |rest|
      {
        GreatestExists(rest);
        var name :| name in rest && forall m :: m in rest && m != name ==> StrLess(m, name);
        GreatestUnique(rest, name);
        var fileTodos := FileTodosOf(name, files[name]);
        assert ScanNames(files, rest) == fileTodos + ScanNames(files, rest - {name});
        found := found + fileTodos;
        rest := rest - {name};
      }
      todos := found;
    }

    /** `mark_todo_complete`: strikes through the first heading of the todo's
        file whose label is the todo's label, then rescans. A file that cannot
        be read leaves everything as it was. */
    method MarkTodoComplete(todo: Todo)
      modifies this, dir
      ensures dir.present == old(dir.present)
      ensures todo.filePath !in old(dir.files) ==> dir.files == old(dir.files) && todos == old(todos)
      ensures todo.filePath in old(dir.files) ==>
        && dir.files == old(dir.files)[todo.filePath := CompleteTask(old(dir.files)[todo.filePath], todo.text)]
        && todos == Scan(dir.present, dir.files)
    {
      if todo.filePath !in dir.files {
        return;
      }
      var content := dir.files[todo.filePath];
      var lines := Split(content);
      var target := FindTaskLine(lines, todo.text);
      if target.Some? {
        var k := target.value;
        lines := lines[k := StrikeLine(lines[k], todo.text)];
        dir.files := dir.files[todo.filePath := Join(lines)];
      } else {
        assert dir.files[todo.filePath := content] == dir.files;
      }
      ScanNotes();
    }
  }
}
