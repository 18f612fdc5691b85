/** The note repository (notetui/notes.py): one markdown file per day, named
    from the date; reading a missing day yields a synthesised header that is not
    stored; saving overwrites that day's file; and a fuzzy search over every line
    of every day file. The notes directory is a `Directory` object whose `files`
    map holds the readable files by name. */
module Notes {
  import opened Wrappers
  import opened Text
  import opened Dates

  /** The notes directory: whether it exists, and the text of each readable file by name. */
  class Directory {
    var present: bool
    var files: map<string, string>

    constructor (present: bool, files: map<string, string>)
      ensures this.present == present && this.files == files
    {
      this.present := present;
      this.files := files;
    }
  }

  /** A file the pattern `*.md` matches. */
  predicate IsMdName(name: string)
  {
    EndsWith(name, ".md")
  }

  /** `Path(name).stem` for a name matching `*.md`: the name without its ".md"
      suffix, except that a name that is only ".md" counts as having no suffix. */
  function Stem(name: string): (r: string)
    requires IsMdName(name)
    ensures name != ".md" ==> r + ".md" == name
  {
    if name == ".md" then name else name[..|name| - 3]
  }

  lemma StemOfName(name: string, stem: string)
    requires IsMdName(name) && stem + ".md" == name
    ensures name == ".md" ==> stem == ""
    ensures name != ".md" ==> stem == Stem(name)
  {
    assert name[..|name| - 3] == stem;
  }

  /** `get_note_path`: the file name of a day's note, `DD-Mon-YYYY.md`. */
  function NotePath(d: Date): (r: string)
    requires ValidDate(d)
    ensures |r| == 14 && IsMdName(r)
  {
    FormatStem(d) + ".md"
  }

  /** A day's file name is a `*.md` name whose stem parses back to that day. */
  lemma NotePathStem(d: Date)
    requires ValidDate(d)
    ensures IsMdName(NotePath(d)) && NotePath(d) != ".md"
    ensures Stem(NotePath(d)) == FormatStem(d)
    ensures ParseStem(Stem(NotePath(d))) == Some(d)
  {
    var p := NotePath(d);
    assert p[|p| - 3..] == ".md";
    assert p[..|p| - 3] == FormatStem(d);
    ParseFormatStem(d);
  }

  /** Two different days never share a file. */
  lemma NotePathInjective(a: Date, b: Date)
    requires ValidDate(a) && ValidDate(b) && a != b
    ensures NotePath(a) != NotePath(b)
  {
    if NotePath(a) == NotePath(b) {
      NotePathStem(a);
      NotePathStem(b);
      FormatStemInjective(a, b);
    }
  }

  /** The first line of a day's default content. */
  function DefaultHeader(d: Date): string
    requires ValidDate(d)
  {
    "# " + WeekdayName(d) + ", " + LongDate(d)
  }

  lemma HeaderHasNoBreak(d: Date)
    requires ValidDate(d)
    ensures '\n' !in DefaultHeader(d)
  {
    var w := Weekday(d);
    assert '\n' !in WeekdayNames[w] by {
      if w == 0 {} else if w == 1 {} else if w == 2 {} else if w == 3 {} else if w == 4 {} else if w == 5 {} else {}
    }
    var m := d.month;
    assert '\n' !in MonthNames[m - 1] by {
      if m == 1 {} else if m == 2 {} else if m == 3 {} else if m == 4 {} else if m == 5 {} else if m == 6 {}
      else if m == 7 {} else if m == 8 {} else if m == 9 {} else if m == 10 {} else if m == 11 {} else {}
    }
    assert '\n' !in Pad2(d.day) && '\n' !in Pad4(d.year);
    assert '\n' !in LongDate(d);
  }

  /** `_create_default_content`: a level-1 header naming the weekday and the long date, then a blank line. */
  function DefaultContent(d: Date): (r: string)
    requires ValidDate(d)
    ensures Split(r) == [DefaultHeader(d), "", ""]
  {
    var header := DefaultHeader(d);
    HeaderHasNoBreak(d);
    SplitAfterLine("", "");
    assert "" + "\n" + "" == "\n";
    assert Split("\n") == ["", ""];
    SplitAfterLine(header, "\n");
    assert header + "\n\n" == header + "\n" + "\n";
    header + "\n\n"
  }

  /** `note_exists`: the day's file is present. */
  predicate NoteExists(files: map<string, string>, d: Date)
    requires ValidDate(d)
  {
    NotePath(d) in files
  }

  /** `get_note_content`: the stored text verbatim, or the default content for a day without a file. */
  function ReadNote(files: map<string, string>, d: Date): string
    requires ValidDate(d)
  {
    if NoteExists(files, d) then files[NotePath(d)] else DefaultContent(d)
  }

  /** `save_note_content`: the day's file now holds exactly `content`. */
  function WriteNote(files: map<string, string>, d: Date, content: string): map<string, string>
    requires ValidDate(d)
  {
    files[NotePath(d) := content]
  }

  /** Reading a day with no file gives its default content; the default is not stored. */
  lemma ReadMissing(files: map<string, string>, d: Date)
    requires ValidDate(d) && !NoteExists(files, d)
    ensures ReadNote(files, d) == DefaultContent(d)
    ensures Split(ReadNote(files, d)) == [DefaultHeader(d), "", ""]
  {
  }

  /** After saving, reading that day returns exactly what was saved, the note
      exists, and every other day reads and exists as before. */
  lemma ReadAfterWrite(files: map<string, string>, d: Date, content: string, e: Date)
    requires ValidDate(d) && ValidDate(e)
    ensures NoteExists(WriteNote(files, d, content), d)
    ensures ReadNote(WriteNote(files, d, content), d) == content
    ensures e != d ==> ReadNote(WriteNote(files, d, content), e) == ReadNote(files, e)
    ensures e != d ==> NoteExists(WriteNote(files, d, content), e) == NoteExists(files, e)
  {
    if e != d {
      NotePathInjective(d, e);
    }
  }

  /** Saving touches only the day's own file. */
  lemma WriteOnlyTouchesDay(files: map<string, string>, d: Date, content: string, name: string)
    requires ValidDate(d) && name != NotePath(d)
    ensures name in WriteNote(files, d, content) <==> name in files
    ensures name in files ==> WriteNote(files, d, content)[name] == files[name]
  {
  }

  /** `SequenceMatcher.ratio` is a similarity in [0, 1]. */
  ghost predicate IsRatio(ratio: (string, string) -> real)
  {
    forall a, b :: 0.0 <= ratio(a, b) <= 1.0
  }

  /** The `min_score` default of `search_notes`. */
  const DefaultMinScore: real := 0.4

  /** `SearchResult`. */
  datatype SearchResult = SearchResult(date: Date, filename: string, lineNumber: int, lineContent: string, score: real)

  /** The score of one lower-cased line against the lower-cased, stripped query:
      1.0 for a substring match, else the fuzzy ratio. */
  function LineScore(q: string, lineLower: string, ratio: (string, string) -> real): (score: real)
    ensures Contains(lineLower, q) ==> score == 1.0
    ensures !Contains(lineLower, q) ==> score == ratio(q, lineLower)
    ensures IsRatio(ratio) ==> 0.0 <= score <= 1.0
  {
    if Contains(lineLower, q) then 1.0 else ratio(q, lineLower)
  }

  /** `r` is a result the search must return for query `q`: it names a `*.md`
      file whose stem parses as `r.date`, a 1-based line of that file whose
      stripped text is `r.lineContent` and is not blank, and that line's score,
      which reaches `minScore`. */
  predicate IsMatch(files: map<string, string>, q: string, minScore: real, ratio: (string, string) -> real, r: SearchResult)
  {
    && r.filename + ".md" in files
    && ParseStem(r.filename) == Some(r.date)
    && 1 <= r.lineNumber <= |Split(files[r.filename + ".md"])|
    && r.lineContent == Strip(Split(files[r.filename + ".md"])[r.lineNumber - 1])
    && r.lineContent != ""
    && r.score == LineScore(q, Lower(r.lineContent), ratio)
    && r.score >= minScore
  }

  /** `a` is later than or on the same day as `b`. */
  predicate OnOrAfter(a: Date, b: Date)
  {
    a.year > b.year || (a.year == b.year && (a.month > b.month || (a.month == b.month && a.day >= b.day)))
  }

  /** The sort key `(-score, -date)` of `a` is at most that of `b`. */
  predicate RankedBefore(a: SearchResult, b: SearchResult)
  {
    a.score > b.score || (a.score == b.score && OnOrAfter(a.date, b.date))
  }

  predicate Ranked(rs: seq<SearchResult>)
  {
    forall i, j :: 0 <= i < j < |rs| ==> RankedBefore(rs[i], rs[j])
  }

  predicate Distinct<T(==)>(s: seq<T>)
  {
    forall i, j :: 0 <= i < j < |s| ==> s[i] != s[j]
  }

  /** Inserts `x` before the first element it does not rank after, so that equal keys keep their order. */
  function Insert(x: SearchResult, s: seq<SearchResult>): (r: seq<SearchResult>)
    ensures multiset(r) == multiset(s) + multiset{x}
  {
    if s == [] then [x]
    else if RankedBefore(x, s[0]) then [x] + s
    else
      assert s == [s[0]] + s[1..];
      [s[0]] + Insert(x, s[1..])
  }

  lemma RankedBeforeTotal(a: SearchResult, b: SearchResult)
    ensures RankedBefore(a, b) || RankedBefore(b, a)
  {
  }

  lemma {:induction false} InsertRanked(x: SearchResult, s: seq<SearchResult>)
    requires Ranked(s)
    ensures Ranked(Insert(x, s))
    decreases |s|
  {
    if s != [] && !RankedBefore(x, s[0]) {
      var t := Insert(x, s[1..]);
      InsertRanked(x, s[1..]);
      RankedBeforeTotal(x, s[0]);
      forall j | 0 <= j < |t|
        ensures RankedBefore(s[0], t[j])
      {
        assert t[j] in multiset(t);
        if t[j] != x {
          assert t[j] in multiset(s[1..]);
          var k :| 0 <= k < |s[1..]| && s[1..][k] == t[j];
          assert s[k + 1] == t[j];
        }
      }
      assert Insert(x, s) == [s[0]] + t;
    }
  }

  lemma {:induction false} InsertDistinct(x: SearchResult, s: seq<SearchResult>)
    requires Distinct(s) && x !in s
    ensures Distinct(Insert(x, s))
    decreases |s|
  {
    if s != [] && !RankedBefore(x, s[0]) {
      var t := Insert(x, s[1..]);
      assert Distinct(s[1..]);
      InsertDistinct(x, s[1..]);
      assert s[0] !in s[1..];
      assert s[0] !in multiset(t) by {
        assert multiset(t) == multiset(s[1..]) + multiset{x};
      }
      assert Insert(x, s) == [s[0]] + t;
    }
  }

  /** `results.sort(key=lambda r: (-r.score, -r.date.timestamp()))`: a stable sort by that key. */
  function SortByRank(rs: seq<SearchResult>): (r: seq<SearchResult>)
    ensures multiset(r) == multiset(rs)
    ensures Ranked(r)
  {
    if rs == [] then []
    else
      var t := SortByRank(rs[1..]);
      assert rs == [rs[0]] + rs[1..];
      InsertRanked(rs[0], t);
      Insert(rs[0], t)
  }

  /** Sorting keeps distinct results distinct. */
  lemma {:induction false} SortByRankDistinct(rs: seq<SearchResult>)
    requires Distinct(rs)
    ensures Distinct(SortByRank(rs))
  {
    if rs != [] {
      assert rs == [rs[0]] + rs[1..];
      assert Distinct(rs[1..]);
      SortByRankDistinct(rs[1..]);
      var t := SortByRank(rs[1..]);
      assert rs[0] !in rs[1..];
      assert rs[0] !in t by { assert rs[0] !in multiset(t); }
      InsertDistinct(rs[0], t);
    }
  }

  /** The only result a search can report for line `i` of file `name`. */
  lemma MatchAtLine(files: map<string, string>, q: string, minScore: real, ratio: (string, string) -> real,
                    name: string, date: Date, i: int, r: SearchResult)
    requires name in files && IsMdName(name) && name != ".md"
    requires ParseStem(Stem(name)) == Some(date)
    requires 0 <= i < |Split(files[name])|
    requires r.filename + ".md" == name && r.lineNumber == i + 1
    ensures IsMatch(files, q, minScore, ratio, r) <==>
      var line := Strip(Split(files[name])[i]);
      && line != ""
      && LineScore(q, Lower(line), ratio) >= minScore
      && r == SearchResult(date, Stem(name), i + 1, line, LineScore(q, Lower(line), ratio))
  {
    StemOfName(name, r.filename);
  }

  class NoteManager {
    const dir: Directory

    /** `__init__`: creates the notes directory if it is missing. */
    constructor (dir: Directory)
      modifies dir
      ensures this.dir == dir && dir.present && dir.files == old(dir.files)
    {
      this.dir := dir;
      new;
      dir.present := true;
    }

    method GetNoteContent(d: Date) returns (content: string)
      requires ValidDate(d)
      ensures content == ReadNote(dir.files, d)
      ensures !NoteExists(dir.files, d) ==> content == DefaultContent(d)
    {
      var path := NotePath(d);
      if path in dir.files {
        content := dir.files[path];
      } else {
        content := DefaultContent(d);
      }
    }

    method SaveNoteContent(d: Date, content: string)
      requires ValidDate(d) && dir.present
      modifies dir
      ensures dir.present && dir.files == WriteNote(old(dir.files), d, content)
    {
      var path := NotePath(d);
      dir.files := dir.files[path := content];
    }

    method NoteExistsFor(d: Date) returns (exists_: bool)
      requires ValidDate(d)
      ensures exists_ <==> NotePath(d) in dir.files
    {
      exists_ := NotePath(d) in dir.files;
    }

    /** `search_notes`: every non-blank line of every day file whose score
        reaches `minScore`, once each, best score first and later day first among
        equal scores. The directory listing order is not fixed, so the loop takes
        the files in an arbitrary order; it shows only in the order of results
        whose keys are equal. */
    method SearchNotes(query: string, minScore: real, ratio: (string, string) -> real) returns (results: seq<SearchResult>)
      ensures Strip(query) == "" ==> results == []
      ensures Strip(query) != "" ==>
        forall r :: r in results <==> IsMatch(dir.files, Strip(Lower(query)), minScore, ratio, r)
      ensures Distinct(results)
      ensures Ranked(results)
    {
      if |query| == 0 || Strip(query) == "" {
        return [];
      }
      var q := Strip(Lower(query));
      var files := dir.files;
      var found: seq<SearchResult> := [];
      var rest := set n | n in files && IsMdName(n);
      while rest != {}
        invariant forall n :: n in rest ==> n in files && IsMdName(n)
        invariant forall r :: r in found <==> IsMatch(files, q, minScore, ratio, r) && r.filename + ".md" !in rest
        invariant Distinct(found)
        decreases |rest|
      {
        var name :| name in rest;
        rest := rest - {name};
        var stem := Stem(name);
        var date := ParseStem(stem);
        if date.None? {
          forall r: SearchResult | r.filename + ".md" == name
            ensures !IsMatch(files, q, minScore, ratio, r)
          {
            StemOfName(name, r.filename);
          }
        } else {
          var lines := Split(files[name]);
          assert stem + ".md" == name;
          var i := 0;
          while i < |lines|
            invariant 0 <= i <= |lines|
            invariant forall r :: r in found <==>
              IsMatch(files, q, minScore, ratio, r) && r.filename + ".md" !in rest
              && (r.filename + ".md" == name ==> r.lineNumber <= i)
            invariant Distinct(found)
          {
            ghost var before := found;
            var lineStripped := Strip(lines[i]);
            ghost var hit := SearchResult(date.value, stem, i + 1, lineStripped, LineScore(q, Lower(lineStripped), ratio));
            if lineStripped != "" {
              var score := LineScore(q, Lower(lineStripped), ratio);
              if score >= minScore {
                assert hit !in before;
                found := found + [SearchResult(date.value, stem, i + 1, lineStripped, score)];
              }
            }
            forall r: SearchResult
              ensures r in found <==>
                IsMatch(files, q, minScore, ratio, r) && r.filename + ".md" !in rest
                && (r.filename + ".md" == name ==> r.lineNumber <= i + 1)
            {
              if r.filename + ".md" == name && r.lineNumber == i + 1 {
                MatchAtLine(files, q, minScore, ratio, name, date.value, i, r);
              }
            }
            i := i + 1;
          }
        }
      }
      results := SortByRank(found);
      SortByRankDistinct(found);
      assert forall r :: r in results <==> r in multiset(found);
    }
  }
}
