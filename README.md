# notetui core, modelled in Dafny

notetui is a terminal daily-notes application. Each calendar day has one
markdown file in a notes directory, named `DD-Mon-YYYY.md`. This project models
and proves properties of the logic behind it:

- **Note repository** (`Notes`, from `notetui/notes.py`). It maps a date to its
  file name and reads a day's text. A day without a file reads as a synthesised
  header that is not stored. Saving overwrites that day's file. It also covers
  day and week navigation, and the fuzzy line search over all day files with
  its score threshold and ranking.
- **Task index** (`Todos`, from `notetui/todolist.py`). A task is a level-2
  heading line. The scan lists the open tasks of every `*.md` file, in
  descending file-name order and then in line order. Completing a task strikes
  through the first heading with the same label and rescans.
- **Editor rules** (`NoteApp`, from `notetui/app.py`). These are the cursor-line
  "finish task" rewrite, saving the editor to the current day, and the
  save-then-load sequence that runs when the viewed day changes.
- **Calendar** (`CalendarView`, from `notetui/calendar.py`). Month stepping wraps
  over year ends. The week-up and week-down focus moves are clamped to the day
  grid.
- **Search screen** (`SearchScreen`, from `notetui/search.py`). Queries shorter
  than two characters are not searched. At most 30 results are shown. Long
  lines are shortened to 60 characters for display.

Supporting modules: `Text` holds the Python string operations the code relies
on (`strip`, `lstrip`, `rstrip(c)`, `lower`, `in`, `split('\n')`,
`'\n'.join`, and string `<`). `Dates` holds proleptic Gregorian dates in
Python's range of years 1 to 9999: `toordinal`, `timedelta` day steps,
`weekday`, and `strftime`/`strptime` for the formats used. `Wrappers` holds
`Option`.

The notes directory is a `Directory` object. It has a `present` flag and a map
from file name to text for the files that can be read. The note manager, the
task index and the application share one such object, so a save is seen by the
next scan. The fuzzy similarity `SequenceMatcher.ratio` is a function
parameter; `IsRatio` says it lies in [0, 1]. The directory listing order of
`glob` is not fixed: the search takes files in an arbitrary order, while the
scan always takes the greatest remaining name, which is what sorting in
reverse yields.

Two behaviours of the code that a reader might not expect:

- The todo index is ordered by file name, descending. It is not ordered by
  date: `30-Nov-2025.md` comes after `31-Oct-2025.md`
  (`Todos.NameOrderIsNotDateOrder`).
- The scan does not skip `*.md` files whose names are not dates. Their stem is
  still reported as the todo's date string.

## Model

| member | source | states |
|---|---|---|
| Text.LStripSpec | notetui/app.py:359 | `lstrip` drops only whitespace, drops all leading whitespace, and keeps a suffix of the line |
| Text.RStripSpec | notetui/notes.py:177 | `rstrip` drops only whitespace, drops all trailing whitespace, and keeps a prefix of the line |
| Text.RStripCharSpec | notetui/todolist.py:186 | `rstrip('#')` removes exactly the trailing run of `#` and keeps a prefix |
| Text.Indent | notetui/app.py:358-359 | the indentation is all whitespace, and the line is its indentation followed by its `lstrip` |
| Text.LStripAfterSpace | notetui/todolist.py:227 | `lstrip` of whitespace followed by text is the `lstrip` of that text |
| Text.StripKeepsChars | notetui/todolist.py:186 | stripping introduces no character that was not in the input |
| Text.Split | notetui/todolist.py:181 | `split('\n')` yields at least one piece and no piece contains a line break |
| Text.JoinSplit | notetui/todolist.py:181-230 | joining the split lines with `'\n'` gives back the text |
| Text.SplitJoin | notetui/todolist.py:230 | splitting a join of break-free lines gives back exactly those lines |
| Text.StrLessIrreflexive | notetui/todolist.py:174 | no file name sorts before itself |
| Text.StrLessTransitive | notetui/todolist.py:174 | the name order is transitive |
| Text.StrLessTotal | notetui/todolist.py:174 | of two different names exactly one sorts first |
| Dates.OrdinalRange | notetui/notes.py:93-135 | every valid date has a `toordinal` in 1..3652059 |
| Dates.OrdinalInjective | notetui/notes.py:200 | dates with the same ordinal are the same date |
| Dates.NextDay | notetui/notes.py:93-102 | the next day is a valid date or an overflow |
| Dates.PrevDay | notetui/notes.py:104-113 | the previous day is a valid date or an overflow |
| Dates.NextDayOrdinal | notetui/notes.py:93-102 | the next day is exactly one ordinal later, and only 31 Dec 9999 has none |
| Dates.PrevDayOrdinal | notetui/notes.py:104-113 | the previous day is exactly one ordinal earlier, and only 1 Jan 1 has none |
| Dates.NextPrevInverse | notetui/notes.py:93-113 | `e` is the next day of `d` if and only if `d` is the previous day of `e` |
| Dates.ShiftOrdinal | notetui/notes.py:93-135 | shifting by `n` days succeeds exactly when the target ordinal is representable, and moves the ordinal by exactly `n` |
| Dates.ShiftInverse | notetui/notes.py:93-135 | shifting by `-n` undoes shifting by `n` |
| Dates.NextWeekOrdinal | notetui/notes.py:115-124 | next week is exactly 7 days later, or an overflow past 9999 |
| Dates.PrevWeekOrdinal | notetui/notes.py:126-135 | previous week is exactly 7 days earlier, or an overflow before year 1 |
| Dates.NextWeekThenPrev | notetui/notes.py:115-135 | a week back undoes a week forward |
| Dates.PrevWeekThenNext | notetui/notes.py:115-135 | a week forward undoes a week back |
| Dates.WeekdayAdvances | notetui/notes.py:89 | the weekday of the next day is the following weekday, cyclically |
| Dates.ParseStem | notetui/notes.py:166-169 | a stem that parses as `%d-%b-%Y` yields a valid date |
| Dates.ParseFormatStem | notetui/notes.py:53 | parsing a formatted stem with the same format gives back the date |
| Dates.FormatStemInjective | notetui/notes.py:44-54 | different days get different file-name stems |
| Dates.Shift | notetui/notes.py:93-135 | adding `timedelta(days=n)` by repeated day steps; a result, when there is one, is a valid date (its exact ordinal is in Dates.ShiftOrdinal) |
| Dates.NextWeek | notetui/notes.py:115-124 | `get_next_week` is a shift by 7 days, and yields a valid date or an overflow |
| Dates.PrevWeek | notetui/notes.py:126-135 | `get_previous_week` is a shift by -7 days, and yields a valid date or an overflow |
| Dates.WeekdayName | notetui/notes.py:89 | `%A` is one of the seven English weekday names |
| Dates.FormatStem | notetui/notes.py:53 | `%d-%b-%Y` is exactly 11 characters, `DD-Mon-YYYY`, with the dashes at positions 2 and 6 (parsed back by Dates.ParseFormatStem) |
| Dates.LongDate | notetui/notes.py:90 | `%d %B %Y`, the day, full English month name and year; checked on 21 November 2025 by Dates.ExampleNovember21 |
| Dates.ExampleNovember21 | test_notes.py:24-31 | 21 Nov 2025 is stem `21-Nov-2025`, a Friday, written `21 November 2025` |
| Dates.ExampleLeapBoundaries | test_notes.py:42-48 | day steps across a month end, over 29 Feb 2024, from 28 Feb 2025, and over a year end |
| Notes.Stem | notetui/todolist.py:178 | a `*.md` name other than `.md` is its stem followed by `.md` |
| Notes.StemOfName | notetui/notes.py:193 | a stem that gives back a `*.md` name other than `.md` is that name's `Path.stem`; for the name `.md` the only such stem is empty, while `Path('.md').stem` is `.md` itself |
| Notes.NotePath | notetui/notes.py:44-54 | `get_note_path`: a 14-character name matching `*.md`; its stem parses back to the day (Notes.NotePathStem) |
| Notes.NotePathStem | notetui/notes.py:44-54 | a day's file name matches `*.md`, and its stem parses back to that day |
| Notes.NotePathInjective | notetui/notes.py:44-54 | two different days never share a file |
| Notes.HeaderHasNoBreak | notetui/notes.py:89-91 | the default header line contains no line break |
| Notes.DefaultContent | notetui/notes.py:80-91 | the default content is the line `# <Weekday>, <DD Month YYYY>`, then an empty line, then a final empty piece |
| Notes.ReadMissing | notetui/notes.py:65-68 | reading a day without a file gives its default content, which is not stored |
| Notes.ReadAfterWrite | notetui/notes.py:70-78 | after saving, the day reads back exactly what was saved and its note exists; every other day reads and exists as before |
| Notes.WriteOnlyTouchesDay | notetui/notes.py:77-78 | saving leaves every other file name and its text unchanged |
| Notes.LineScore | notetui/notes.py:181-188 | a line containing the query scores exactly 1.0, any other line scores the fuzzy ratio, and the score lies in [0, 1] when the ratio does |
| Notes.Insert | notetui/notes.py:200 | insertion into the ranked list adds exactly one copy of the element |
| Notes.InsertRanked | notetui/notes.py:200 | insertion keeps the list ordered by score descending, then date descending |
| Notes.InsertDistinct | notetui/notes.py:200 | insertion keeps the list free of duplicates |
| Notes.SortByRank | notetui/notes.py:199-200 | the sort is a permutation, ordered by score descending then date descending |
| Notes.SortByRankDistinct | notetui/notes.py:200 | sorting keeps a duplicate-free list duplicate-free |
| Notes.IsMatch | notetui/notes.py:164-197 | the declarative search predicate: the result names a present date-named file, carries its parsed date and a 1-based line number within the file, holds the stripped line, which is not blank, and scores that line at or above `min_score`; Notes.NoteManager.SearchNotes returns exactly the results meeting it |
| Notes.MatchAtLine | notetui/notes.py:176-197 | the only result reportable for line `i` of a file is the stripped line with its score, and only if the line is not blank and reaches the threshold |
| Notes.NoteManager.constructor | notetui/notes.py:35-42 | the notes directory exists afterwards and its files are unchanged |
| Notes.NoteManager.GetNoteContent | notetui/notes.py:56-68 | returns the stored text, or the default content for a day without a file |
| Notes.NoteManager.SaveNoteContent | notetui/notes.py:70-78 | the store afterwards is the old store with that day's file set to the content |
| Notes.NoteManager.NoteExistsFor | notetui/notes.py:137-146 | true exactly when the day's file is present |
| Notes.NoteManager.SearchNotes | notetui/notes.py:148-201 | a blank query gives no results; otherwise a result is returned if and only if it names a date-named file and its 1-based line, and the stripped line is not blank and scores at least `min_score`; no duplicates; ordered by score descending, then date descending |
| Todos.IsTaskHeading | notetui/todolist.py:184 | a stripped line is a task heading when it starts with `##` but not with `###`; Todos.StrikeLineLabel and Todos.ScanMembers are stated with it |
| Todos.Label | notetui/todolist.py:186 | the todo text of a heading: the text after `##`, stripped, with trailing `#` removed, and stripped again (Text.RStripCharSpec, Text.StripKeepsChars) |
| Todos.IsStruck | notetui/todolist.py:189 | a label is finished when it both starts and ends with `~~`; Todos.StrikeLineLabel proves a struck line meets it |
| Todos.TodoAt | notetui/todolist.py:183-193 | the todo on line `k` of a file: present exactly for a task heading whose label is non-empty and not struck, holding that label, the file's stem, the file and `k`; Todos.LinesTodosFacts and Todos.ScanMembers are stated with it |
| Todos.LinesTodosFacts | notetui/todolist.py:181-193 | a file's tasks are exactly the open-task lines, with 0-based line numbers, in ascending line order |
| Todos.GreatestExists | notetui/todolist.py:174 | a non-empty set of names has a greatest name |
| Todos.GreatestUnique | notetui/todolist.py:174 | the greatest name is unique |
| Todos.ScanNamesMembers | notetui/todolist.py:174-193 | the scan of a set of files lists exactly the open tasks of those files |
| Todos.ScanMembers | notetui/todolist.py:165-197 | the index lists a task if and only if its line in its own `*.md` file is a level-2 heading whose label equals the todo's text and is neither empty nor struck through; the entry holds the 0-based line and the file's stem |
| Todos.ScanNamesOrdered | notetui/todolist.py:174-193 | entries are ordered by file name descending, then by line ascending |
| Todos.ScanOrdered | notetui/todolist.py:174-182 | the whole index is ordered by file name descending, then by line ascending |
| Todos.NameOrderIsNotDateOrder | notetui/todolist.py:174 | the note of 30 Nov 2025 sorts after that of 31 Oct 2025, although it is the later day |
| Todos.DefaultContentHasNoTasks | notetui/notes.py:91 | a day's synthesised note holds no task |
| Todos.FirstTaskLine | notetui/todolist.py:212-220 | finds the first line whose stripped text is a level-2 heading with the given label, or reports that no line matches |
| Todos.FindTaskLine | notetui/todolist.py:212-220 | the search loop returns exactly Todos.FirstTaskLine: the first line that is a task heading with the given label, or none |
| Todos.StrikeLine | notetui/todolist.py:223-227 | the replacement line, the original indentation then `## ~~text~~`; its properties are in Todos.StrikeLineLabel and Todos.StrikeLineNoBreak |
| Todos.CompleteTask | notetui/todolist.py:208-230 | the new file text: the first matching heading struck through, or the old text when none matches; its properties are in Todos.CompleteTaskLines, Todos.CompleteTaskChanges and Todos.CompleteRemovesOnlyTarget |
| Todos.StrikeLineLabel | notetui/todolist.py:227 | the struck line strips to `## ~~text~~`; it is a level-2 heading labelled `~~text~~`; it is struck through, so it is neither listed nor matched by its old label |
| Todos.StrikeLineNoBreak | notetui/todolist.py:224-227 | a struck line has no line break when the matched line has none |
| Todos.CompleteTaskLines | notetui/todolist.py:222-230 | completing changes exactly the matched line and keeps the line count and every other line |
| Todos.CompleteTaskChanges | notetui/todolist.py:222-230 | the file text changes if and only if some heading has the todo's label |
| Todos.CompleteRemovesOnlyTarget | notetui/todolist.py:189-190 | after completion, a rescan lists every task it listed before except the one on the completed line, and nothing new |
| Todos.FileTodosOf | notetui/todolist.py:176-193 | one file's pass of the scan loop builds exactly that file's open tasks in line order |
| Todos.TodoList.ScanNotes | notetui/todolist.py:165-197 | rebuilds the index as the scan of the directory, or as empty when the directory is missing |
| Todos.TodoList.MarkTodoComplete | notetui/todolist.py:199-238 | a missing file changes nothing; otherwise the file becomes its completed text (unchanged when no heading matches) and the index is rescanned |
| NoteApp.FinishTodoOnLine | notetui/app.py:340-365 | the decision for one cursor row, in the order the source tests it: out of range, not a level-2 heading, already struck, or finished with the rewritten text and label; its properties are in NoteApp.FinishChangesOnlyRow, NoteApp.FinishTwice and NoteApp.FinishEmptyLabel |
| NoteApp.FinishChangesOnlyRow | notetui/app.py:358-365 | a finish happens only on a level-2 heading row; it rewrites that row to `indent + "## ~~label~~"`, where the label is the one `scan_notes` extracts; the other lines and the line count stay unchanged |
| NoteApp.FinishTwice | notetui/app.py:353-355 | finishing the same row again reports it as already finished |
| NoteApp.FinishEmptyLabel | notetui/app.py:348-362 | a bare `##` heading is not a scanned task, yet the cursor rule rewrites it to `## ~~~~` |
| NoteApp.App.constructor | notetui/app.py:190-204 | after mounting, the editor shows today's note, the tracker is today, and the index is scanned |
| NoteApp.App.SaveCurrentNote | notetui/app.py:246-255 | stores the editor text under the current day, sets the previous-date tracker to that day, rescans, and keeps the text |
| NoteApp.App.WatchCurrentDate | notetui/app.py:206-224 | the editor text is stored under the previous day first (when there is one) and the index rescanned; then the editor holds the new day's note and the tracker becomes the new day |
| NoteApp.App.ActionFinishTodoOnLine | notetui/app.py:332-372 | out-of-range rows, non-headings and struck labels change nothing; otherwise the editor holds the rewritten text, which is saved under the current day |
| NoteApp.SwitchAwayAndBack | notetui/app.py:206-224 | leaving a day and coming back shows the text the editor held when it left |
| CalendarView.MonthAfter | notetui/calendar.py:249-258 | the next month is a month 1..12 exactly one month index later |
| CalendarView.MonthBefore | notetui/calendar.py:265-274 | the previous month is a month 1..12 exactly one month index earlier |
| CalendarView.MonthIndexInjective | notetui/calendar.py:249-279 | a year and month are determined by their month index |
| CalendarView.MonthSteps | notetui/calendar.py:249-279 | a previous-month step after a next-month step, and the other way round, return to the same year and month |
| CalendarView.MonthAfterWraps | notetui/calendar.py:251-258 | December goes to January of the next year; any other month goes to month+1 of the same year |
| CalendarView.MonthBeforeWraps | notetui/calendar.py:267-274 | January goes to December of the previous year; any other month goes to month−1 of the same year |
| CalendarView.WeekUpIndex | notetui/calendar.py:208 | moving up goes 7 back, or to 0 near the start, and stays within `[0, idx]` |
| CalendarView.WeekDownIndex | notetui/calendar.py:220 | moving down goes 7 on, or to the last index near the end, and stays within `[idx, len)` |
| CalendarView.IndexOf | notetui/calendar.py:207 | `list.index` finds the first position of the button, or reports it absent |
| CalendarView.KeyUpTarget | notetui/calendar.py:201-211 | the up key focuses `max(0, idx - 7)`, where `idx` is the first position of the focused button; it focuses nothing when that button is not in the grid |
| CalendarView.KeyDownTarget | notetui/calendar.py:213-223 | the down key focuses `min(len - 1, idx + 7)`, where `idx` is the first position of the focused button; it focuses nothing when that button is not in the grid |
| CalendarView.WeekStepsInverse | notetui/calendar.py:201-223 | away from the grid edges, a week down then up (or up then down) returns to the same day |
| CalendarView.Calendar.NextMonth | notetui/calendar.py:249-263 | shows day 1 of the following month, or fails past year 9999 and keeps the display |
| CalendarView.Calendar.PreviousMonth | notetui/calendar.py:265-279 | shows day 1 of the preceding month, or fails before year 1 and keeps the display |
| SearchScreen.Truncate | notetui/search.py:27-30 | a line of at most 60 characters is shown unchanged; a longer one becomes its first 57 characters plus `...`, exactly 60 characters long |
| SearchScreen.TruncateIdempotent | notetui/search.py:28-30 | shortening an already shortened line changes nothing |
| SearchScreen.SearchModalScreen.PerformSearch | notetui/search.py:141-155 | a query of two or more characters gets the manager's search results; the first min(30, n) are shown in order, or "No results found" when there are none; a shorter query clears the results and shows the length hint |
| SearchScreen.SearchModalScreen.SelectResult | notetui/search.py:157-159 | selecting a result yields exactly its date and 1-based line number |
| SearchScreen.BlankQueryPassesGate | notetui/search.py:146 | two spaces pass the length gate, yet they search nothing because the query strips to empty |

## Left out

- Locale selection (`notetui/notes.py:20-29`, `notetui/calendar.py:14-23`) is not modelled. The code first tries a Norwegian `LC_TIME` locale; weekday and month names here are those of the default C locale it falls back to, whose `%b` abbreviations `strptime` also reads.
- Real file-system I/O is not modelled: `mkdir`, `glob`, `read_text`, `write_text` and their failures. The store is a map. An unreadable file is simply absent from the map.
- Only coherent directory states are meant: when `present` is false, `files` is empty. Directory's constructor accepts any pair, and nothing in the model proves that methods keep this.
- Notes.ReadAfterWrite, Notes.NoteManager.SaveNoteContent: `read_text` translates the line endings `\r\n` and `\r` to `\n` (universal newlines), and the model stores and reads text unchanged. So the exact read-back holds only for text without `\r`. The same translation in the reads of `scan_notes`, `mark_todo_complete` and `search_notes` is not modelled either.
- The swallowed exceptions are not modelled (`notetui/todolist.py:194-195`, `notetui/todolist.py:237-238`). A write failure in `mark_todo_complete` is out of scope.
- The posting of `TodoFileUpdated`, and the editor reload it triggers, are not modelled. Neither are notifications, CSS, layout, focus plumbing or widget composition.
- The internals of `difflib.SequenceMatcher.ratio` are not modelled; the ratio is an uninterpreted function parameter.
- Notes.SortByRank: the float key `-r.date.timestamp()` is replaced by comparing (year, month, day). This is the same order for the midnight datetimes parsed from file names.
- Notes.NoteManager.SearchNotes: the order among results with equal score and equal date is not stated. Results from one file keep their line order under the stable sort. Results from different files that parse to the same day, such as `1-Nov-2025.md` and `01-Nov-2025.md`, follow the unspecified `glob` order. The model proves only the order by ranking key.
- `datetime.now()`, clocks and the time-of-day fields of `datetime` are not modelled; dates are (year, month, day) and "today" is a parameter.
- `calendar.monthcalendar` and the construction of the day grid are not modelled. The key handlers are modelled on the list of enabled buttons.
- Textual's reactive machinery is not modelled. Its watcher is skipped when the new value equals the old one; NoteApp.App.WatchCurrentDate models the watcher as always run.
- NoteApp.App.constructor: it models the app after `on_mount`. The earlier watcher run from `__init__`, which has no editor yet, is not modelled.
- The navigation actions and `on_calendar_date_selected` only assign `current_date`. They are reached through NoteApp.App.WatchCurrentDate and are not modelled separately.
- `on_todo_item_selected` (`notetui/app.py:420-432`) is not modelled. It first parses the todo's date string with `strptime` (Dates.ParseStem), and assigns `current_date` only on success. For a todo from a `*.md` file whose stem is not a date, it just reports a parse error and stays on the current day.
- `str.lower` and `strptime` are modelled on ASCII letters. Unicode case mappings and non-ASCII digits are not modelled.
- Dates.FormatStem: `%Y` is modelled as four zero-padded digits. Some platforms print years below 1000 without padding.
- Calendar.NextMonth and Calendar.PreviousMonth return `ok = false` where Python raises ValueError, outside years 1 to 9999. The propagation of that exception is not modelled.
- Arithmetic overflow of day and week steps is modelled as `None` where Python raises OverflowError.
