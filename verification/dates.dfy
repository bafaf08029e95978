/**
 * The dates of the future-dating rule: the scanner that plays the part of
 *   re.findall(r'(\d{4}-\d{2}-\d{2})', text)
 * (leftmost, non-overlapping ten-character matches), the calendar check that
 * `datetime.strptime(date_str, "%Y-%m-%d")` performs on each match (a match that
 * is not a real date raises and is skipped), and the comparison with the
 * current date.
 */
module Dates {
  import opened Wrappers
  import opened Text

  /** A calendar date as `datetime.date` holds it. */
  datatype Date = Date(year: int, month: int, day: int)

  predicate IsLeapYear(y: int) {
    y % 4 == 0 && (y % 100 != 0 || y % 400 == 0)
  }

  function DaysInMonth(y: int, m: int): (n: int)
    ensures 28 <= n <= 31
  {
    if m == 2 then (if IsLeapYear(y) then 29 else 28)
    else if m == 4 || m == 6 || m == 9 || m == 11 then 30
    else 31
  }

  /** The dates `datetime` accepts: years 1 to 9999, months 1 to 12, days within the month. */
  predicate IsValid(d: Date) {
    && 1 <= d.year <= 9999
    && 1 <= d.month <= 12
    && 1 <= d.day <= DaysInMonth(d.year, d.month)
  }

  /** `\d{4}-\d{2}-\d{2}` matches at `i`. */
  predicate DateAt(s: string, i: nat) {
    && i + 10 <= |s|
    && IsDigit(s[i]) && IsDigit(s[i + 1]) && IsDigit(s[i + 2]) && IsDigit(s[i + 3])
    && s[i + 4] == '-'
    && IsDigit(s[i + 5]) && IsDigit(s[i + 6])
    && s[i + 7] == '-'
    && IsDigit(s[i + 8]) && IsDigit(s[i + 9])
  }

  /** A string that is exactly one match of the date pattern. */
  predicate IsDateText(t: string) {
    |t| == 10 && DateAt(t, 0)
  }

  /**
   * The start of every match from position `from` on, as `re.findall` finds
   * them: the leftmost match, then the leftmost one after it, and so on. The
   * matches do not overlap; DateScanMissesNothing adds that none is skipped.
   */
  function ScanDates(s: string, from: nat): (r: seq<nat>)
    ensures forall k :: 0 <= k < |r| ==> from <= r[k] && DateAt(s, r[k])
    ensures forall i, j :: 0 <= i < j < |r| ==> r[i] + 10 <= r[j]
    decreases |s| - from
  {
    if from + 10 > |s| then []
    else if DateAt(s, from) then [from] + ScanDates(s, from + 10)
    else ScanDates(s, from + 1)
  }

  /**
   * Every position where the date pattern matches lies inside a reported
   * match: the scan finds the leftmost, non-overlapping matches.
   */
  lemma {:induction false} DateScanMissesNothing(s: string, from: nat, p: nat)
    requires from <= p && DateAt(s, p)
    ensures exists k :: 0 <= k < |ScanDates(s, from)| && ScanDates(s, from)[k] <= p < ScanDates(s, from)[k] + 10
    decreases |s| - from
  {
    var r := ScanDates(s, from);
    if DateAt(s, from) {
      if p < from + 10 {
        assert r[0] == from;
      } else {
        DateScanMissesNothing(s, from + 10, p);
        var rest := ScanDates(s, from + 10);
        var k :| 0 <= k < |rest| && rest[k] <= p < rest[k] + 10;
        assert r[k + 1] == rest[k];
      }
    } else {
      DateScanMissesNothing(s, from + 1, p);
    }
  }

  /** The list `re.findall` returns: the text of every match, in order. */
  function DateMatches(s: string): (ds: seq<string>)
    ensures forall k :: 0 <= k < |ds| ==> IsDateText(ds[k])
  {
    var starts := ScanDates(s, 0);
    seq(|starts|, k requires 0 <= k < |starts| => s[starts[k]..starts[k] + 10])
  }

  /** `datetime.strptime(t, "%Y-%m-%d")`: the date `t` spells, or None where that raises. */
  function ParseDate(t: string): Option<Date>
    requires IsDateText(t)
  {
    var d := Date(DigitsValue(t[..4]), DigitsValue(t[5..7]), DigitsValue(t[8..]));
    if IsValid(d) then Some(d) else None
  }

  /** The `YYYY-MM-DD` spelling of a date, zero-padded. */
  function DateText(d: Date): string
    requires 0 <= d.year && 0 <= d.month && 0 <= d.day
  {
    PadDigits(d.year, 4) + "-" + PadDigits(d.month, 2) + "-" + PadDigits(d.day, 2)
  }

  /**
   * `a > b` on `datetime` values: field by field, year first. A date parsed
   * by `strptime` is at midnight, so it is later than the current moment
   * exactly when its calendar date is later than today's.
   */
  predicate IsAfter(a: Date, b: Date) {
    || a.year > b.year
    || (a.year == b.year && a.month > b.month)
    || (a.year == b.year && a.month == b.month && a.day > b.day)
  }

  // ---------------------------------------------------------------- lemmas

  /** Every valid date is spelled as one match of the pattern, which reads back as that date. */
  lemma ParseDateText(d: Date)
    requires IsValid(d)
    ensures IsDateText(DateText(d))
    ensures ParseDate(DateText(d)) == Some(d)
  {
    assert Pow10(2) == 100 && Pow10(4) == 10000 by {
      assert Pow10(1) == 10;
      assert Pow10(3) == 1000;
    }
    var y, m, dd := PadDigits(d.year, 4), PadDigits(d.month, 2), PadDigits(d.day, 2);
    PadDigitsValue(d.year, 4);
    PadDigitsValue(d.month, 2);
    PadDigitsValue(d.day, 2);
    var t := DateText(d);
    assert t[..4] == y && t[5..7] == m && t[8..] == dd;
    assert t[4] == '-' && t[7] == '-';
    assert forall k :: 0 <= k < 4 ==> t[k] == y[k];
    assert t[5] == m[0] && t[6] == m[1] && t[8] == dd[0] && t[9] == dd[1];
  }

  /**
   * A match that parses is the canonical spelling of its date, so the date
   * string a finding quotes determines the date.
   */
  lemma DateTextOfParse(t: string)
    requires IsDateText(t) && ParseDate(t).Some?
    ensures DateText(ParseDate(t).value) == t
  {
    var y, m, d := t[..4], t[5..7], t[8..];
    assert AllDigits(y) && AllDigits(m) && AllDigits(d);
    PadDigitsOfValue(y);
    PadDigitsOfValue(m);
    PadDigitsOfValue(d);
    assert t == y + "-" + m + "-" + d;
  }

  // ---------------------------------------------------- the day count

  /**
   * A match is skipped exactly when it is not the zero-padded spelling of a
   * real calendar date: a thirteenth month, a day zero, 29 February outside a
   * leap year and year 0 are all refused.
   */
  lemma ParsesIffSpellsRealDate(t: string)
    requires IsDateText(t)
    ensures ParseDate(t).Some? <==> exists d :: IsValid(d) && DateText(d) == t
  {
    if ParseDate(t).Some? {
      DateTextOfParse(t);
    } else if exists d :: IsValid(d) && DateText(d) == t {
      var d :| IsValid(d) && DateText(d) == t;
      ParseDateText(d);
    }
  }

  /** Days before 1 January of year `y` counted from 1 January of year 1 (as in Python's `datetime`). */
  function DaysBeforeYear(y: int): int
    requires y >= 1
  {
    var p := y - 1;
    p * 365 + p / 4 - p / 100 + p / 400
  }

  /** Days in year `y` before the first of month `m`. */
  function DaysBeforeMonth(y: int, m: int): (n: int)
    requires 1 <= m <= 13
    ensures n >= 0
  {
    if m == 1 then 0 else DaysBeforeMonth(y, m - 1) + DaysInMonth(y, m - 1)
  }

  /** The day number of a date, 1 January of year 1 being day 1 (`date.toordinal()`). */
  function Ordinal(d: Date): int
    requires IsValid(d)
  {
    DaysBeforeYear(d.year) + DaysBeforeMonth(d.year, d.month) + d.day
  }

  lemma YearLength(y: int)
    requires y >= 1
    ensures DaysBeforeYear(y + 1) - DaysBeforeYear(y) == if IsLeapYear(y) then 366 else 365
    ensures DaysBeforeMonth(y, 13) == DaysBeforeYear(y + 1) - DaysBeforeYear(y)
  {
    LeapDaysStep(y);
    MonthTable(y);
  }

  /** Going from year y to y + 1 adds 365 days, plus one when y is a leap year. */
  lemma LeapDaysStep(y: int)
    requires y >= 1
    ensures DaysBeforeYear(y + 1) - DaysBeforeYear(y) == if IsLeapYear(y) then 366 else 365
  {
    var p := y - 1;
    LeapStep4(p);
    LeapStep100(p);
    LeapStep400(p);
    assert DaysBeforeYear(y + 1) == y * 365 + y / 4 - y / 100 + y / 400;
    assert DaysBeforeYear(y) == p * 365 + p / 4 - p / 100 + p / 400;
    DivisibilityChain(y);
  }

  lemma DivisibilityChain(y: int)
    ensures y % 400 == 0 ==> y % 100 == 0
    ensures y % 100 == 0 ==> y % 4 == 0
  {
    if y % 400 == 0 {
      var q := y / 400;
      assert y == 100 * (4 * q);
    }
    if y % 100 == 0 {
      var q := y / 100;
      assert y == 4 * (25 * q);
    }
  }

  lemma LeapStep4(p: nat)
    ensures (p + 1) / 4 == p / 4 + (if (p + 1) % 4 == 0 then 1 else 0)
  {
  }

  lemma LeapStep100(p: nat)
    ensures (p + 1) / 100 == p / 100 + (if (p + 1) % 100 == 0 then 1 else 0)
  {
  }

  lemma LeapStep400(p: nat)
    ensures (p + 1) / 400 == p / 400 + (if (p + 1) % 400 == 0 then 1 else 0)
  {
  }

  /** The twelve months of year y add up to the length of the year. */
  lemma MonthTable(y: int)
    ensures DaysBeforeMonth(y, 13) == if IsLeapYear(y) then 366 else 365
  {
    var feb := if IsLeapYear(y) then 29 else 28;
    assert DaysBeforeMonth(y, 2) == 31;
    assert DaysBeforeMonth(y, 3) == 31 + feb;
    assert DaysBeforeMonth(y, 4) == 62 + feb;
    assert DaysBeforeMonth(y, 5) == 92 + feb;
    assert DaysBeforeMonth(y, 6) == 123 + feb;
    assert DaysBeforeMonth(y, 7) == 153 + feb;
    assert DaysBeforeMonth(y, 8) == 184 + feb;
    assert DaysBeforeMonth(y, 9) == 215 + feb;
    assert DaysBeforeMonth(y, 10) == 245 + feb;
    assert DaysBeforeMonth(y, 11) == 276 + feb;
    assert DaysBeforeMonth(y, 12) == 306 + feb;
  }

  lemma {:induction false} DaysBeforeMonthGrows(y: int, m1: int, m2: int)
    requires 1 <= m1 < m2 <= 13
    ensures DaysBeforeMonth(y, m1) + DaysInMonth(y, m1) <= DaysBeforeMonth(y, m2)
    decreases m2
  {
    if m1 < m2 - 1 {
      DaysBeforeMonthGrows(y, m1, m2 - 1);
    }
  }

  lemma {:induction false} DaysBeforeYearGrows(y1: int, y2: int)
    requires 1 <= y1 < y2
    ensures DaysBeforeYear(y1 + 1) <= DaysBeforeYear(y2)
    decreases y2 - y1
  {
    if y1 + 1 < y2 {
      DaysBeforeYearGrows(y1, y2 - 1);
      YearLength(y2 - 1);
    }
  }

  lemma AfterMeansLaterDay(a: Date, b: Date)
    requires IsValid(a) && IsValid(b) && IsAfter(a, b)
    ensures Ordinal(a) > Ordinal(b)
  {
    if a.year > b.year {
      DaysBeforeMonthGrows(b.year, b.month, 13);
      YearLength(b.year);
      DaysBeforeYearGrows(b.year, a.year);
      assert Ordinal(b) <= DaysBeforeYear(b.year + 1);
    } else if a.month > b.month {
      DaysBeforeMonthGrows(a.year, b.month, a.month);
    }
  }

  /**
   * The field-by-field comparison is the chronological order: for real dates,
   * `a` is after `b` exactly when `a` falls on a later day.
   */
  lemma AfterIffLaterDay(a: Date, b: Date)
    requires IsValid(a) && IsValid(b)
    ensures IsAfter(a, b) <==> Ordinal(a) > Ordinal(b)
  {
    if IsAfter(a, b) {
      AfterMeansLaterDay(a, b);
    } else if a != b {
      AfterMeansLaterDay(b, a);
    }
  }
}
