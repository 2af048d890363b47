/**
 * Proleptic Gregorian dates, as Python's `datetime` has them: the successor
 * of a day, adding a number of days (`d + timedelta(days=n)`), the ordinal
 * day number (`date.toordinal()`), and the `YYYY-MM-DD` text the download
 * script builds from a date.
 */
module Calendar {
  import opened Wrappers
  import opened Text

  datatype Date = Date(year: int, month: int, day: int)

  predicate IsLeapYear(y: int) {
    y % 4 == 0 && (y % 100 != 0 || y % 400 == 0)
  }

  function DaysInMonth(y: int, m: int): (n: int)
    requires 1 <= m <= 12
    ensures 28 <= n <= 31
    ensures n == 31 <==> m in {1, 3, 5, 7, 8, 10, 12}
    ensures n == 30 <==> m in {4, 6, 9, 11}
    ensures m == 2 ==> (n == 29 <==> IsLeapYear(y))
  {
    if m == 2 then (if IsLeapYear(y) then 29 else 28)
    else if m == 4 || m == 6 || m == 9 || m == 11 then 30
    else 31
  }

  /**
   * A number `datetime(year, month, day)` can take at all: CPython reads each
   * argument as a C `int` and raises `OverflowError` for one outside its range.
   */
  predicate IsCInt(n: int) {
    -0x8000_0000 <= n < 0x8000_0000
  }

  /** A calendar date (year 1 or later, as `datetime` starts at year 1). */
  predicate Valid(d: Date) {
    1 <= d.year && 1 <= d.month <= 12 && 1 <= d.day <= DaysInMonth(d.year, d.month)
  }

  /** The years `datetime` accepts (`MINYEAR` to `MAXYEAR`). */
  predicate InDatetimeRange(d: Date) {
    Valid(d) && d.year <= 9999
  }

  /** Chronological order, which is the lexicographic order on (year, month, day). */
  predicate Before(a: Date, b: Date) {
    a.year < b.year
    || (a.year == b.year && a.month < b.month)
    || (a.year == b.year && a.month == b.month && a.day < b.day)
  }

  /** The day after `d`. */
  function NextDay(d: Date): (r: Date)
    requires Valid(d)
    ensures Valid(r) && Before(d, r)
  {
    if d.day < DaysInMonth(d.year, d.month) then Date(d.year, d.month, d.day + 1)
    else if d.month < 12 then Date(d.year, d.month + 1, 1)
    else Date(d.year + 1, 1, 1)
  }

  /** `d + timedelta(days=n)`. */
  function AddDays(d: Date, n: nat): (r: Date)
    requires Valid(d)
    ensures Valid(r)
  {
    if n == 0 then d else NextDay(AddDays(d, n - 1))
  }

  /** Days in the years before `y`. */
  function DaysBeforeYear(y: int): int
    requires y >= 1
  {
    var p := y - 1;
    365 * p + p / 4 - p / 100 + p / 400
  }

  /** Days in the months of year `y` before month `m`. */
  function DaysBeforeMonth(y: int, m: int): int
    requires 1 <= m <= 12
  {
    var common :=
      if m == 1 then 0 else if m == 2 then 31 else if m == 3 then 59
      else if m == 4 then 90 else if m == 5 then 120 else if m == 6 then 151
      else if m == 7 then 181 else if m == 8 then 212 else if m == 9 then 243
      else if m == 10 then 273 else if m == 11 then 304 else 334;
    if m > 2 && IsLeapYear(y) then common + 1 else common
  }

  /** `date.toordinal()`: 1 January of year 1 is day 1. */
  function Ordinal(d: Date): int
    requires Valid(d)
  {
    DaysBeforeYear(d.year) + DaysBeforeMonth(d.year, d.month) + d.day
  }

  lemma DaysBeforeNextYear(y: int)
    requires y >= 1
    ensures DaysBeforeYear(y + 1) == DaysBeforeYear(y) + (if IsLeapYear(y) then 366 else 365)
  {
    var p := y - 1;
    assert (p + 1) / 4 == p / 4 + (if y % 4 == 0 then 1 else 0);
    assert (p + 1) / 100 == p / 100 + (if y % 100 == 0 then 1 else 0);
    assert (p + 1) / 400 == p / 400 + (if y % 400 == 0 then 1 else 0);
  }

  /** The successor of a day has the next ordinal: `NextDay` agrees with `toordinal`. */
  lemma NextDayOrdinal(d: Date)
    requires Valid(d)
    ensures Ordinal(NextDay(d)) == Ordinal(d) + 1
  {
    if d.day == DaysInMonth(d.year, d.month) && d.month == 12 {
      DaysBeforeNextYear(d.year);
    }
  }

  /** Adding `n` days adds `n` to the ordinal, which is what `timedelta` does. */
  lemma {:induction false} AddDaysOrdinal(d: Date, n: nat)
    requires Valid(d)
    ensures Ordinal(AddDays(d, n)) == Ordinal(d) + n
  {
    if n > 0 {
      AddDaysOrdinal(d, n - 1);
      NextDayOrdinal(AddDays(d, n - 1));
    }
  }

  /** Adding more days gives a strictly later date. */
  lemma {:induction false} AddDaysIncreasing(d: Date, i: nat, j: nat)
    requires Valid(d) && i < j
    ensures Before(AddDays(d, i), AddDays(d, j))
    decreases j
  {
    if i < j - 1 {
      AddDaysIncreasing(d, i, j - 1);
    }
  }

  /** Different offsets from the same day give different days. */
  lemma AddDaysInjective(d: Date, i: nat, j: nat)
    requires Valid(d) && i != j
    ensures AddDays(d, i) != AddDays(d, j)
  {
    AddDaysOrdinal(d, i);
    AddDaysOrdinal(d, j);
  }

  /**
   * The date text the download script builds:
   * `f"{year}-{str(month).zfill(2)}-{str(day).zfill(2)}"`.
   */
  function FormatDate(d: Date): string {
    IntToString(d.year) + "-" + ZFill(IntToString(d.month), 2) + "-" + ZFill(IntToString(d.day), 2)
  }

  /** Reads `Y-M-D` back: three runs of decimal digits separated by '-'. */
  function ParseDate(s: string): Option<Date> {
    var parts := Split(s, "-");
    if |parts| == 3 && (forall k :: 0 <= k < 3 ==> parts[k] != [] && AllDigits(parts[k])) then
      Some(Date(DigitsValue(parts[0]), DigitsValue(parts[1]), DigitsValue(parts[2])))
    else None
  }

  /** The pieces of a formatted date: digits only, no '-'. */
  lemma FormatDatePieces(d: Date)
    requires Valid(d)
    ensures FormatDate(d) == NatToString(d.year) + "-" + ZFill(IntToString(d.month), 2) + "-" + ZFill(IntToString(d.day), 2)
    ensures '-' !in NatToString(d.year)
    ensures '-' !in ZFill(IntToString(d.month), 2) && '-' !in ZFill(IntToString(d.day), 2)
  {
    Pad2(d.month);
    Pad2(d.day);
  }

  /** The date text splits at its two '-' into the year, month and day texts. */
  lemma SplitFormatDate(d: Date)
    requires Valid(d)
    ensures Split(FormatDate(d), "-") ==
      [NatToString(d.year), ZFill(IntToString(d.month), 2), ZFill(IntToString(d.day), 2)]
  {
    FormatDatePieces(d);
    var y, m, dd := NatToString(d.year), ZFill(IntToString(d.month), 2), ZFill(IntToString(d.day), 2);
    assert FormatDate(d) == y + ['-'] + m + ['-'] + dd;
    SplitThree(y, m, dd, '-');
  }

  /** Formatting a date and reading it back gives the date: the text loses nothing. */
  lemma ParseFormatDate(d: Date)
    requires Valid(d)
    ensures ParseDate(FormatDate(d)) == Some(d)
  {
    SplitFormatDate(d);
    var y, m, dd := NatToString(d.year), ZFill(IntToString(d.month), 2), ZFill(IntToString(d.day), 2);
    var parts := Split(FormatDate(d), "-");
    DigitsValueOfNat(d.year);
    Pad2(d.month);
    Pad2(d.day);
    assert parts[0] == y && parts[1] == m && parts[2] == dd;
    assert forall k :: 0 <= k < 3 ==> parts[k] != [] && AllDigits(parts[k]);
    assert DigitsValue(y) == d.year && DigitsValue(m) == d.month && DigitsValue(dd) == d.day;
  }

  /** Distinct dates have distinct texts. */
  lemma FormatDateInjective(a: Date, b: Date)
    requires Valid(a) && Valid(b) && FormatDate(a) == FormatDate(b)
    ensures a == b
  {
    ParseFormatDate(a);
    ParseFormatDate(b);
  }

  /**
   * The `full-date` production of section 5.6 of RFC 3339:
   * `date-fullyear "-" date-month "-" date-mday`, with 4, 2 and 2 digits.
   */
  predicate IsFullDate(s: string) {
    |s| == 10 && s[4] == '-' && s[7] == '-'
    && forall k :: 0 <= k < 10 && k != 4 && k != 7 ==> IsDigit(s[k])
  }

  /** For years 1000 to 9999 the script's date text is an RFC 3339 full-date. */
  lemma FormatDateIsFullDate(d: Date)
    requires Valid(d) && 1000 <= d.year <= 9999
    ensures IsFullDate(FormatDate(d))
  {
    FormatDatePieces(d);
    NatToStringFourDigits(d.year);
    Pad2(d.month);
    Pad2(d.day);
    var y, m, dd := NatToString(d.year), ZFill(IntToString(d.month), 2), ZFill(IntToString(d.day), 2);
    var s := FormatDate(d);
    assert s == y + "-" + m + "-" + dd;
    assert forall k :: 0 <= k < 4 ==> s[k] == y[k];
    assert s[5] == m[0] && s[6] == m[1] && s[8] == dd[0] && s[9] == dd[1];
  }
}
