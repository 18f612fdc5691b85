/** Calendar dates as Python's `datetime` handles them: proleptic Gregorian
    dates from 1 January 1 to 31 December 9999, their day ordinal
    (`toordinal()`), day arithmetic that fails outside that range, and the
    fixed English names that the note file names and headers use. */
module Dates {
  import opened Wrappers
  import opened Text

  /** A calendar day; the time of day is not part of a note's identity. */
  datatype Date = Date(year: int, month: int, day: int)

  const MinYear := 1
  const MaxYear := 9999
  /** The ordinal of 31 December 9999, the last day `datetime` represents. */
  const MaxOrdinal := 3652059

  predicate IsLeapYear(y: int)
  {
    y % 4 == 0 && (y % 100 != 0 || y % 400 == 0)
  }

  function DaysInMonth(y: int, m: int): int
    requires 1 <= m <= 12
  {
    if m == 2 then (if IsLeapYear(y) then 29 else 28)
    else if m == 4 || m == 6 || m == 9 || m == 11 then 30
    else 31
  }

  predicate ValidDate(d: Date)
  {
    && MinYear <= d.year <= MaxYear
    && 1 <= d.month <= 12
    && 1 <= d.day <= DaysInMonth(d.year, d.month)
  }

  function DaysInYear(y: int): int
  {
    if IsLeapYear(y) then 366 else 365
  }

  /** Days in the years before `y` (Python's `_days_before_year`). */
  function DaysBeforeYear(y: int): int
    requires y >= 1
  {
    var k := y - 1;
    365 * k + k / 4 - k / 100 + k / 400
  }

  const DaysBeforeMonthTable: seq<int> := [0, 31, 59, 90, 120, 151, 181, 212, 243, 273, 304, 334, 365]

  /** Days in year `y` before month `m`; month 13 stands for the end of the year. */
  function DaysBeforeMonth(y: int, m: int): int
    requires 1 <= m <= 13
  {
    DaysBeforeMonthTable[m - 1] + (if m > 2 && IsLeapYear(y) then 1 else 0)
  }

  /** `toordinal()`: 1 January of year 1 is day 1. */
  function Ordinal(d: Date): int
    requires ValidDate(d)
  {
    DaysBeforeYear(d.year) + DaysBeforeMonth(d.year, d.month) + d.day
  }

  lemma YearStep(y: int)
    requires y >= 1
    ensures DaysBeforeYear(y + 1) == DaysBeforeYear(y) + DaysInYear(y)
  {
    var k := y - 1;
    assert (k + 1) / 4 == k / 4 + (if y % 4 == 0 then 1 else 0);
    assert (k + 1) / 100 == k / 100 + (if y % 100 == 0 then 1 else 0);
    assert (k + 1) / 400 == k / 400 + (if y % 400 == 0 then 1 else 0);
  }

  lemma MonthStep(y: int, m: int)
    requires 1 <= m <= 12
    ensures DaysBeforeMonth(y, m + 1) == DaysBeforeMonth(y, m) + DaysInMonth(y, m)
  {
  }

  lemma {:induction false} YearsMonotone(a: int, b: int)
    requires 1 <= a <= b
    ensures DaysBeforeYear(a) + (b - a) * 365 <= DaysBeforeYear(b)
    decreases b - a
  {
    if a < b {
      YearsMonotone(a, b - 1);
      YearStep(b - 1);
    }
  }

  lemma {:induction false} MonthsMonotone(y: int, a: int, b: int)
    requires 1 <= a <= b <= 13
    ensures DaysBeforeMonth(y, a) <= DaysBeforeMonth(y, b)
    decreases b - a
  {
    if a < b {
      MonthsMonotone(y, a, b - 1);
      MonthStep(y, b - 1);
    }
  }

  /** A date's ordinal falls inside its own year and inside its own month. */
  lemma OrdinalPlacement(d: Date)
    requires ValidDate(d)
    ensures DaysBeforeYear(d.year) < Ordinal(d) <= DaysBeforeYear(d.year + 1)
    ensures DaysBeforeMonth(d.year, d.month) < Ordinal(d) - DaysBeforeYear(d.year) <= DaysBeforeMonth(d.year, d.month + 1)
  {
    MonthStep(d.year, d.month);
    MonthsMonotone(d.year, d.month + 1, 13);
    YearStep(d.year);
  }

  /** Every valid date has an ordinal in `[1, MaxOrdinal]`. */
  lemma OrdinalRange(d: Date)
    requires ValidDate(d)
    ensures 1 <= Ordinal(d) <= MaxOrdinal
  {
    OrdinalPlacement(d);
    YearsMonotone(d.year + 1, MaxYear + 1);
  }

  /** Distinct valid dates have distinct ordinals. */
  lemma OrdinalInjective(a: Date, b: Date)
    requires ValidDate(a) && ValidDate(b)
    requires Ordinal(a) == Ordinal(b)
    ensures a == b
  {
    OrdinalPlacement(a);
    OrdinalPlacement(b);
    if a.year < b.year {
      YearsMonotone(a.year + 1, b.year);
    } else if b.year < a.year {
      YearsMonotone(b.year + 1, a.year);
    }
    assert a.year == b.year;
    if a.month < b.month {
      MonthsMonotone(a.year, a.month + 1, b.month);
    } else if b.month < a.month {
      MonthsMonotone(a.year, b.month + 1, a.month);
    }
  }

  /** `date + timedelta(days=1)`; `None` where Python raises OverflowError. */
  function NextDay(d: Date): (r: Option<Date>)
    requires ValidDate(d)
    ensures r.Some? ==> ValidDate(r.value)
  {
    if d.day < DaysInMonth(d.year, d.month) then Some(Date(d.year, d.month, d.day + 1))
    else if d.month < 12 then Some(Date(d.year, d.month + 1, 1))
    else if d.year < MaxYear then Some(Date(d.year + 1, 1, 1))
    else None
  }

  /** `date - timedelta(days=1)`; `None` where Python raises OverflowError. */
  function PrevDay(d: Date): (r: Option<Date>)
    requires ValidDate(d)
    ensures r.Some? ==> ValidDate(r.value)
  {
    if d.day > 1 then Some(Date(d.year, d.month, d.day - 1))
    else if d.month > 1 then Some(Date(d.year, d.month - 1, DaysInMonth(d.year, d.month - 1)))
    else if d.year > MinYear then Some(Date(d.year - 1, 12, 31))
    else None
  }

  /** The next day is exactly one ordinal later; only the last representable day has none. */
  lemma NextDayOrdinal(d: Date)
    requires ValidDate(d)
    ensures NextDay(d).None? <==> Ordinal(d) == MaxOrdinal
    ensures NextDay(d).Some? ==> Ordinal(NextDay(d).value) == Ordinal(d) + 1
  {
    if d.day < DaysInMonth(d.year, d.month) {
    } else if d.month < 12 {
      MonthStep(d.year, d.month);
    } else if d.year < MaxYear {
      YearStep(d.year);
    }
    if NextDay(d).Some? {
      OrdinalRange(NextDay(d).value);
    }
  }

  /** The previous day is exactly one ordinal earlier; only 1 January of year 1 has none. */
  lemma PrevDayOrdinal(d: Date)
    requires ValidDate(d)
    ensures PrevDay(d).None? <==> Ordinal(d) == 1
    ensures PrevDay(d).Some? ==> Ordinal(PrevDay(d).value) == Ordinal(d) - 1
  {
    if d.day > 1 {
    } else if d.month > 1 {
      MonthStep(d.year, d.month - 1);
    } else if d.year > MinYear {
      YearStep(d.year - 1);
    }
    if PrevDay(d).Some? {
      OrdinalRange(PrevDay(d).value);
    }
  }

  /** Next day and previous day undo each other, across month, year and leap-day boundaries. */
  lemma NextPrevInverse(d: Date, e: Date)
    requires ValidDate(d) && ValidDate(e)
    ensures NextDay(d) == Some(e) <==> PrevDay(e) == Some(d)
  {
    NextDayOrdinal(d);
    PrevDayOrdinal(e);
    OrdinalRange(d);
    if NextDay(d) == Some(e) {
      OrdinalInjective(PrevDay(e).value, d);
    }
    if PrevDay(e) == Some(d) {
      OrdinalInjective(NextDay(d).value, e);
    }
  }

  /** `date + timedelta(days=n)`, one day at a time; `None` where Python raises OverflowError. */
  function Shift(d: Date, n: int): (r: Option<Date>)
    requires ValidDate(d)
    ensures r.Some? ==> ValidDate(r.value)
    decreases if n < 0 then -n else n
  {
    if n == 0 then Some(d)
    else if n > 0 then
      match NextDay(d)
      case None => None
      case Some(e) => Shift(e, n - 1)
    else
      match PrevDay(d)
      case None => None
      case Some(e) => Shift(e, n + 1)
  }

  /** Shifting by `n` days moves the ordinal by exactly `n`, and fails exactly
      when the target ordinal is outside the representable range. */
  lemma {:induction false} ShiftOrdinal(d: Date, n: int)
    requires ValidDate(d)
    ensures Shift(d, n).Some? <==> 1 <= Ordinal(d) + n <= MaxOrdinal
    ensures Shift(d, n).Some? ==> ValidDate(Shift(d, n).value) && Ordinal(Shift(d, n).value) == Ordinal(d) + n
    decreases if n < 0 then -n else n
  {
    OrdinalRange(d);
    if n > 0 {
      NextDayOrdinal(d);
      if NextDay(d).Some? {
        ShiftOrdinal(NextDay(d).value, n - 1);
      }
    } else if n < 0 {
      PrevDayOrdinal(d);
      if PrevDay(d).Some? {
        ShiftOrdinal(PrevDay(d).value, n + 1);
      }
    }
  }

  /** Shifting back by the same number of days returns to the starting date. */
  lemma ShiftInverse(d: Date, n: int)
    requires ValidDate(d) && Shift(d, n).Some?
    ensures Shift(Shift(d, n).value, -n) == Some(d)
  {
    var e := Shift(d, n).value;
    ShiftOrdinal(d, n);
    ShiftOrdinal(e, -n);
    OrdinalInjective(Shift(e, -n).value, d);
  }

  /** `date + timedelta(weeks=1)`. */
  function NextWeek(d: Date): (r: Option<Date>)
    requires ValidDate(d)
    ensures r.Some? ==> ValidDate(r.value)
  {
    Shift(d, 7)
  }

  /** `date - timedelta(weeks=1)`. */
  function PrevWeek(d: Date): (r: Option<Date>)
    requires ValidDate(d)
    ensures r.Some? ==> ValidDate(r.value)
  {
    Shift(d, -7)
  }

  /** A week step forward is exactly seven days later; it fails only past 31 December 9999. */
  lemma NextWeekOrdinal(d: Date)
    requires ValidDate(d)
    ensures NextWeek(d).Some? <==> Ordinal(d) + 7 <= MaxOrdinal
    ensures NextWeek(d).Some? ==> Ordinal(NextWeek(d).value) == Ordinal(d) + 7
  {
    OrdinalRange(d);
    ShiftOrdinal(d, 7);
  }

  /** A week step back is exactly seven days earlier; it fails only before 1 January 1. */
  lemma PrevWeekOrdinal(d: Date)
    requires ValidDate(d)
    ensures PrevWeek(d).Some? <==> Ordinal(d) - 7 >= 1
    ensures PrevWeek(d).Some? ==> Ordinal(PrevWeek(d).value) == Ordinal(d) - 7
  {
    OrdinalRange(d);
    ShiftOrdinal(d, -7);
  }

  /** A week step forward is undone by a week step back. */
  lemma NextWeekThenPrev(d: Date)
    requires ValidDate(d) && NextWeek(d).Some?
    ensures PrevWeek(NextWeek(d).value) == Some(d)
  {
    ShiftInverse(d, 7);
  }

  /** A week step back is undone by a week step forward. */
  lemma PrevWeekThenNext(d: Date)
    requires ValidDate(d) && PrevWeek(d).Some?
    ensures NextWeek(PrevWeek(d).value) == Some(d)
  {
    ShiftInverse(d, -7);
  }

  /** `weekday()`: 0 is Monday; 1 January of year 1 was a Monday. */
  function Weekday(d: Date): int
    requires ValidDate(d)
  {
    (Ordinal(d) + 6) % 7
  }

  lemma WeekdayStep(o: int)
    ensures (o + 7) % 7 == ((o + 6) % 7 + 1) % 7
  {
    var q, w := (o + 6) / 7, (o + 6) % 7;
    assert o + 7 == 7 * q + w + 1;
    if w == 6 {
      assert o + 7 == 7 * (q + 1);
    }
  }

  /** The day after a Monday is a Tuesday, and so on round the week. */
  lemma WeekdayAdvances(d: Date)
    requires ValidDate(d) && NextDay(d).Some?
    ensures Weekday(NextDay(d).value) == (Weekday(d) + 1) % 7
  {
    NextDayOrdinal(d);
    WeekdayStep(Ordinal(d));
  }

  const WeekdayNames: seq<string> := ["Monday", "Tuesday", "Wednesday", "Thursday", "Friday", "Saturday", "Sunday"]
  const MonthNames: seq<string> := ["January", "February", "March", "April", "May", "June", "July",
                                    "August", "September", "October", "November", "December"]
  const MonthAbbrs: seq<string> := ["Jan", "Feb", "Mar", "Apr", "May", "Jun", "Jul", "Aug", "Sep", "Oct", "Nov", "Dec"]

  /** `strftime("%A")` with English names. */
  function WeekdayName(d: Date): (r: string)
    requires ValidDate(d)
    ensures r in WeekdayNames
  {
    WeekdayNames[Weekday(d)]
  }

  predicate IsDigit(c: char)
  {
    '0' <= c <= '9'
  }

  function DigitValue(c: char): int
  {
    c as int - '0' as int
  }

  function Digit(n: int): char
    requires 0 <= n <= 9
  {
    ('0' as int + n) as char
  }

  /** Zero-padded two-digit decimal. */
  function Pad2(n: int): string
    requires 0 <= n <= 99
  {
    [Digit(n / 10), Digit(n % 10)]
  }

  /** Zero-padded four-digit decimal. */
  function Pad4(n: int): string
    requires 0 <= n <= 9999
  {
    [Digit(n / 1000), Digit(n / 100 % 10), Digit(n / 10 % 10), Digit(n % 10)]
  }

  /** `strftime("%d-%b-%Y")` with English month abbreviations: the stem of a note's file name. */
  function FormatStem(d: Date): (r: string)
    requires ValidDate(d)
    ensures |r| == 11 && r[2] == '-' && r[6] == '-'
  {
    Pad2(d.day) + "-" + MonthAbbrs[d.month - 1] + "-" + Pad4(d.year)
  }

  /** `strftime("%d %B %Y")` with English month names. */
  function LongDate(d: Date): string
    requires ValidDate(d)
  {
    Pad2(d.day) + " " + MonthNames[d.month - 1] + " " + Pad4(d.year)
  }

  /** The `%d` field of `strptime`: `3[01]|[12]\d|0[1-9]|[1-9]| [1-9]`. */
  function ParseDay(t: string): Option<int>
  {
    if |t| == 1 && '1' <= t[0] <= '9' then Some(DigitValue(t[0]))
    else if |t| == 2 && (t[0] == '0' || t[0] == ' ') && '1' <= t[1] <= '9' then Some(DigitValue(t[1]))
    else if |t| == 2 && (t[0] == '1' || t[0] == '2') && IsDigit(t[1]) then Some(10 * DigitValue(t[0]) + DigitValue(t[1]))
    else if |t| == 2 && t[0] == '3' && (t[1] == '0' || t[1] == '1') then Some(30 + DigitValue(t[1]))
    else None
  }

  /** The `%b` field of `strptime`: an English month abbreviation in any letter case. */
  function ParseMonthAbbr(t: string): Option<int>
  {
    var k := Lower(t);
    if k == "jan" then Some(1) else if k == "feb" then Some(2) else if k == "mar" then Some(3)
    else if k == "apr" then Some(4) else if k == "may" then Some(5) else if k == "jun" then Some(6)
    else if k == "jul" then Some(7) else if k == "aug" then Some(8) else if k == "sep" then Some(9)
    else if k == "oct" then Some(10) else if k == "nov" then Some(11) else if k == "dec" then Some(12)
    else None
  }

  /** The `%Y` field of `strptime`: exactly four digits. */
  function ParseYear(t: string): Option<int>
  {
    if |t| == 4 && IsDigit(t[0]) && IsDigit(t[1]) && IsDigit(t[2]) && IsDigit(t[3])
    then Some(1000 * DigitValue(t[0]) + 100 * DigitValue(t[1]) + 10 * DigitValue(t[2]) + DigitValue(t[3]))
    else None
  }

  /** `datetime.strptime(s, "%d-%b-%Y")`: the whole string must match, and the
      fields must name a real date (else ValueError, here `None`). The month and
      year fields have fixed widths, so the separators sit at fixed distances
      from the end. */
  function ParseStem(s: string): (r: Option<Date>)
    ensures r.Some? ==> ValidDate(r.value)
  {
    if |s| < 9 || s[|s| - 9] != '-' || s[|s| - 5] != '-' then None
    else
      match (ParseDay(s[..|s| - 9]), ParseMonthAbbr(s[|s| - 8..|s| - 5]), ParseYear(s[|s| - 4..]))
      case (Some(dd), Some(mm), Some(yy)) =>
        if 1 <= mm <= 12 && ValidDate(Date(yy, mm, dd)) then Some(Date(yy, mm, dd)) else None
      case _ => None
  }

  lemma ParseMonthOfAbbr(m: int)
    requires 1 <= m <= 12
    ensures ParseMonthAbbr(MonthAbbrs[m - 1]) == Some(m)
  {
    var k := Lower(MonthAbbrs[m - 1]);
    assert |k| == 3;
    if m == 1 { assert k == "jan"; }
    else if m == 2 { assert k == "feb"; }
    else if m == 3 { assert k == "mar"; }
    else if m == 4 { assert k == "apr"; }
    else if m == 5 { assert k == "may"; }
    else if m == 6 { assert k == "jun"; }
    else if m == 7 { assert k == "jul"; }
    else if m == 8 { assert k == "aug"; }
    else if m == 9 { assert k == "sep"; }
    else if m == 10 { assert k == "oct"; }
    else if m == 11 { assert k == "nov"; }
    else { assert k == "dec"; }
  }

  lemma ParsePad4(n: int)
    requires 0 <= n <= 9999
    ensures ParseYear(Pad4(n)) == Some(n)
  {
    var t := Pad4(n);
    var q1, q2 := n / 10, n / 100;
    assert n == 10 * q1 + n % 10;
    assert q1 == 10 * q2 + q1 % 10 && q1 % 10 == n / 10 % 10;
    assert q2 == 10 * (n / 1000) + q2 % 10 && q2 % 10 == n / 100 % 10 by {
      assert q2 == q1 / 10;
      assert n / 1000 == q2 / 10;
    }
    assert DigitValue(t[0]) == n / 1000 && DigitValue(t[1]) == n / 100 % 10;
    assert DigitValue(t[2]) == n / 10 % 10 && DigitValue(t[3]) == n % 10;
  }

  lemma ParsePad2(n: int)
    requires 1 <= n <= 31
    ensures ParseDay(Pad2(n)) == Some(n)
  {
    var t := Pad2(n);
    assert DigitValue(t[0]) == n / 10 && DigitValue(t[1]) == n % 10;
  }

  /** Parsing a formatted file-name stem gives back the date. */
  lemma ParseFormatStem(d: Date)
    requires ValidDate(d)
    ensures ParseStem(FormatStem(d)) == Some(d)
  {
    var s := FormatStem(d);
    var dd, mm, yy := Pad2(d.day), MonthAbbrs[d.month - 1], Pad4(d.year);
    assert |mm| == 3;
    assert |s| == 11;
    assert s[..2] == dd && s[2] == '-' && s[3..6] == mm && s[6] == '-' && s[7..] == yy;
    ParsePad2(d.day);
    ParseMonthOfAbbr(d.month);
    ParsePad4(d.year);
  }

  /** Distinct dates get distinct file-name stems. */
  lemma FormatStemInjective(a: Date, b: Date)
    requires ValidDate(a) && ValidDate(b)
    requires FormatStem(a) == FormatStem(b)
    ensures a == b
  {
    ParseFormatStem(a);
    ParseFormatStem(b);
  }

  /** 21 November 2025 is stored as `21-Nov-2025` and was a Friday. */
  lemma ExampleNovember21()
    ensures FormatStem(Date(2025, 11, 21)) == "21-Nov-2025"
    ensures WeekdayName(Date(2025, 11, 21)) == "Friday"
    ensures LongDate(Date(2025, 11, 21)) == "21 November 2025"
  {
  }

  /** Day steps across a month end and over a leap day. */
  lemma ExampleLeapBoundaries()
    ensures NextDay(Date(2024, 1, 31)) == Some(Date(2024, 2, 1))
    ensures PrevDay(Date(2024, 3, 1)) == Some(Date(2024, 2, 29))
    ensures NextDay(Date(2025, 2, 28)) == Some(Date(2025, 3, 1))
    ensures NextDay(Date(2025, 12, 31)) == Some(Date(2026, 1, 1))
  {
  }
}
