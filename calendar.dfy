/** The calendar widget's rules (notetui/calendar.py): stepping the displayed
    month forwards and backwards across year boundaries, and the clamped index
    arithmetic that moves keyboard focus one week up or down in the day grid. */
module CalendarView {
  import opened Wrappers
  import opened Dates

  /** Months counted from January of year 0, so that consecutive months differ by one. */
  function MonthIndex(year: int, month: int): int
  {
    year * 12 + (month - 1)
  }

  /** The year and month `next_month` computes. */
  function MonthAfter(year: int, month: int): (r: (int, int))
    requires 1 <= month <= 12
    ensures 1 <= r.1 <= 12
    ensures MonthIndex(r.0, r.1) == MonthIndex(year, month) + 1
  {
    if month == 12 then (year + 1, 1) else (year, month + 1)
  }

  /** The year and month `previous_month` computes. */
  function MonthBefore(year: int, month: int): (r: (int, int))
    requires 1 <= month <= 12
    ensures 1 <= r.1 <= 12
    ensures MonthIndex(r.0, r.1) == MonthIndex(year, month) - 1
  {
    if month == 1 then (year - 1, 12) else (year, month - 1)
  }

  /** A month is fixed by its index. */
  lemma MonthIndexInjective(y1: int, m1: int, y2: int, m2: int)
    requires 1 <= m1 <= 12 && 1 <= m2 <= 12
    requires MonthIndex(y1, m1) == MonthIndex(y2, m2)
    ensures y1 == y2 && m1 == m2
  {
  }

  /** Stepping forwards and then back, or back and then forwards, returns to the same year and month. */
  lemma MonthSteps(year: int, month: int)
    requires 1 <= month <= 12
    ensures MonthBefore(MonthAfter(year, month).0, MonthAfter(year, month).1) == (year, month)
    ensures MonthAfter(MonthBefore(year, month).0, MonthBefore(year, month).1) == (year, month)
  {
    var a := MonthAfter(year, month);
    var b := MonthBefore(a.0, a.1);
    MonthIndexInjective(b.0, b.1, year, month);
    var c := MonthBefore(year, month);
    var d := MonthAfter(c.0, c.1);
    MonthIndexInjective(d.0, d.1, year, month);
  }

  /** December steps to January of the next year, every other month to the next month of the same year. */
  lemma MonthAfterWraps(year: int, month: int)
    requires 1 <= month <= 12
    ensures month == 12 <==> MonthAfter(year, month).0 == year + 1
    ensures month < 12 <==> MonthAfter(year, month) == (year, month + 1)
    ensures month == 12 ==> MonthAfter(year, month).1 == 1
  {
    var r := MonthAfter(year, month);
    if month < 12 && r.0 != year {
      MonthIndexInjective(r.0, r.1, year, month + 1);
    }
  }

  /** January steps to December of the previous year, every other month to the previous month of the same year. */
  lemma MonthBeforeWraps(year: int, month: int)
    requires 1 <= month <= 12
    ensures month == 1 <==> MonthBefore(year, month).0 == year - 1
    ensures month > 1 <==> MonthBefore(year, month) == (year, month - 1)
    ensures month == 1 ==> MonthBefore(year, month).1 == 12
  {
    var r := MonthBefore(year, month);
    if month > 1 && r.0 != year {
      MonthIndexInjective(r.0, r.1, year, month - 1);
    }
  }

  /** The focus target of `_key_up`: one week earlier, but not before the first day. */
  function WeekUpIndex(idx: int): (r: int)
    ensures r == idx - 7 || (r == 0 && idx < 7)
    ensures 0 <= idx ==> 0 <= r <= idx
  {
    if idx - 7 > 0 then idx - 7 else 0
  }

  /** The focus target of `_key_down`: one week later, but not after the last day. */
  function WeekDownIndex(count: int, idx: int): (r: int)
    ensures r == idx + 7 || (r == count - 1 && idx + 7 > count - 1)
    ensures 0 <= idx < count ==> idx <= r < count
  {
    if count - 1 < idx + 7 then count - 1 else idx + 7
  }

  /** The first position of `x` in `s`, as `list.index` finds it. */
  function IndexOf<T(==)>(s: seq<T>, x: T): (r: Option<nat>)
    ensures r.Some? ==> r.value < |s| && s[r.value] == x && forall j :: 0 <= j < r.value ==> s[j] != x
    ensures r.None? ==> x !in s
  {
    if |s| == 0 then None
    else if s[0] == x then Some(0)
    else
      var rest := IndexOf(s[1..], x);
      if rest.Some? then Some(rest.value + 1) else None
  }

  /** The button `_key_up` focuses among the enabled `buttons`, or nothing when the focused one is not among them. */
  function KeyUpTarget<T(==)>(buttons: seq<T>, focused: T): (r: Option<nat>)
    ensures r.Some? ==> focused in buttons && r.value < |buttons|
    ensures r.Some? ==> IndexOf(buttons, focused).Some? && r.value == WeekUpIndex(IndexOf(buttons, focused).value)
    ensures r.None? <==> focused !in buttons
  {
    match IndexOf(buttons, focused)
    case None => None
    case Some(idx) => Some(WeekUpIndex(idx))
  }

  /** The button `_key_down` focuses among the enabled `buttons`. */
  function KeyDownTarget<T(==)>(buttons: seq<T>, focused: T): (r: Option<nat>)
    ensures r.Some? ==> focused in buttons && r.value < |buttons|
    ensures r.Some? ==> IndexOf(buttons, focused).Some? && r.value == WeekDownIndex(|buttons|, IndexOf(buttons, focused).value)
    ensures r.None? <==> focused !in buttons
  {
    match IndexOf(buttons, focused)
    case None => None
    case Some(idx) => Some(WeekDownIndex(|buttons|, idx))
  }

  /** Away from the edges, a week down then a week up (or up then down) lands on the starting day. */
  lemma WeekStepsInverse(count: int, idx: int)
    requires 0 <= idx < count
    ensures idx + 7 < count ==> WeekUpIndex(WeekDownIndex(count, idx)) == idx
    ensures idx >= 7 ==> WeekDownIndex(count, WeekUpIndex(idx)) == idx
  {
  }

  class Calendar {
    var displayDate: Date

    constructor (initial: Date)
      requires ValidDate(initial)
      ensures displayDate == initial
    {
      displayDate := initial;
    }

    /** `next_month`: shows day 1 of the following month. When that month lies
        past the last representable year, the date constructor fails and the
        display is left as it was (`ok` is false). */
    method NextMonth() returns (ok: bool)
      requires ValidDate(displayDate)
      modifies this
      ensures ok <==> MonthAfter(old(displayDate.year), old(displayDate.month)).0 <= MaxYear
      ensures ok ==> displayDate == Date(MonthAfter(old(displayDate.year), old(displayDate.month)).0,
                                         MonthAfter(old(displayDate.year), old(displayDate.month)).1, 1)
      ensures !ok ==> displayDate == old(displayDate)
      ensures ValidDate(displayDate)
    {
      var month := displayDate.month;
      var year := displayDate.year;
      if month == 12 {
        month := 1;
        year := year + 1;
      } else {
        month := month + 1;
      }
      if year < MinYear || year > MaxYear {
        return false;
      }
      displayDate := Date(year, month, 1);
      ok := true;
    }

    /** `previous_month`: shows day 1 of the preceding month, or fails before the first representable year. */
    method PreviousMonth() returns (ok: bool)
      requires ValidDate(displayDate)
      modifies this
      ensures ok <==> MonthBefore(old(displayDate.year), old(displayDate.month)).0 >= MinYear
      ensures ok ==> displayDate == Date(MonthBefore(old(displayDate.year), old(displayDate.month)).0,
                                         MonthBefore(old(displayDate.year), old(displayDate.month)).1, 1)
      ensures !ok ==> displayDate == old(displayDate)
      ensures ValidDate(displayDate)
    {
      var month := displayDate.month;
      var year := displayDate.year;
      if month == 1 {
        month := 12;
        year := year - 1;
      } else {
        month := month - 1;
      }
      if year < MinYear || year > MaxYear {
        return false;
      }
      displayDate := Date(year, month, 1);
      ok := true;
    }
  }
}
