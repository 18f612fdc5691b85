/** The search screen (notetui/search.py): the query gate, the cap on shown
    results, the one-line display truncation and the selection it returns. */
module SearchScreen {
  import opened Text
  import opened Dates
  import opened Notes

  /** Lines longer than this are shortened for display. */
  const MaxShown := 60
  /** Results shown at most. */
  const ResultCap := 30
  /** Queries shorter than this are not searched. */
  const MinQueryLength := 2

  /** The line text `SearchResultItem.compose` displays. */
  function Truncate(content: string): (r: string)
    ensures |r| <= MaxShown
    ensures |content| <= MaxShown ==> r == content
    ensures |content| > MaxShown ==> |r| == MaxShown && r == content[..57] + "..."
  {
    if |content| > MaxShown then content[..57] + "..." else content
  }

  /** Shortening twice is shortening once. */
  lemma TruncateIdempotent(content: string)
    ensures Truncate(Truncate(content)) == Truncate(content)
  {
  }

  /** A child of the results container. */
  datatype Child = ResultItem(result: SearchResult) | Hint(message: string)

  class SearchModalScreen {
    const manager: NoteManager
    var results: seq<SearchResult>
    var children: seq<Child>

    constructor (manager: NoteManager)
      ensures this.manager == manager
      ensures results == [] && children == [Hint("Start typing to search all notes")]
    {
      this.manager := manager;
      results := [];
      children := [Hint("Start typing to search all notes")];
    }

    /** `_perform_search`: a query of at least two characters is searched with
        the default threshold and the first 30 results are shown in search
        order, or a hint when there are none; a shorter query clears the results. */
    method PerformSearch(query: string, ratio: (string, string) -> real)
      modifies this
      ensures |query| >= MinQueryLength ==>
        && (Strip(query) == "" ==> results == [])
        && (Strip(query) != "" ==>
              forall r :: r in results <==> IsMatch(manager.dir.files, Strip(Lower(query)), DefaultMinScore, ratio, r))
        && Distinct(results) && Ranked(results)
      ensures |query| >= MinQueryLength && results == [] ==> children == [Hint("No results found")]
      ensures |query| >= MinQueryLength && results != [] ==>
        && |children| == (if |results| < ResultCap then |results| else ResultCap)
        && forall i :: 0 <= i < |children| ==> children[i] == ResultItem(results[i])
      ensures |query| < MinQueryLength ==>
        results == [] && children == [Hint("Type at least 2 characters to search")]
    {
      children := [];
      if |query| >= MinQueryLength {
        var found := manager.SearchNotes(query, DefaultMinScore, ratio);
        results := found;
        if |results| > 0 {
          var shown := if |results| < ResultCap then |results| else ResultCap;
          var i := 0;
          while i < shown
            invariant 0 <= i <= shown <= |results|
            invariant results == found
            invariant |children| == i
            invariant forall j :: 0 <= j < i ==> children[j] == ResultItem(results[j])
          {
            children := children + [ResultItem(results[i])];
            i := i + 1;
          }
        } else {
          children := children + [Hint("No results found")];
        }
      } else {
        results := [];
        children := children + [Hint("Type at least 2 characters to search")];
      }
    }

    /** `select_result`: the day and 1-based line the screen is dismissed with. */
    method SelectResult(result: SearchResult) returns (selection: (Date, int))
      ensures selection == (result.date, result.lineNumber)
    {
      selection := (result.date, result.lineNumber);
    }
  }

  /** A two-character query of spaces passes the length gate but searches nothing. */
  lemma BlankQueryPassesGate()
    ensures |"  "| >= MinQueryLength && Strip("  ") == ""
  {
    assert LStrip("  ") == LStrip(" ");
    assert LStrip(" ") == LStrip("");
  }
}
