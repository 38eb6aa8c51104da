/** The proleptic Gregorian calendar of Python's `datetime` module: dates from
    0001-01-01 to 9999-12-31, their day ordinals (0001-01-01 is day 1), adding
    a number of days to a date, and the two `strftime` layouts the handler uses. */
module Dates {
  import opened Wrappers
  import opened Decimal

  const MaxYear := 9999
  /** The ordinal of 9999-12-31, the last day `datetime.date` can represent. */
  const MaxOrdinal := 3652059

  predicate IsLeap(y: int) {
    y % 4 == 0 && (y % 100 != 0 || y % 400 == 0)
  }

  function DaysInYear(y: int): int {
    if IsLeap(y) then 366 else 365
  }

  function DaysInMonth(y: int, m: int): int
    requires 1 <= m <= 12
  {
    if m == 2 then (if IsLeap(y) then 29 else 28)
    else if m == 4 || m == 6 || m == 9 || m == 11 then 30
    else 31
  }

  /** Days in year `y` before the first day of month `m`. */
  function DaysBeforeMonth(y: int, m: int): int
    requires 1 <= m <= 12
  {
    var common :=
      if m == 1 then 0 else if m == 2 then 31 else if m == 3 then 59
      else if m == 4 then 90 else if m == 5 then 120 else if m == 6 then 151
      else if m == 7 then 181 else if m == 8 then 212 else if m == 9 then 243
      else if m == 10 then 273 else if m == 11 then 304 else 334;
    common + (if m > 2 && IsLeap(y) then 1 else 0)
  }

  /** Days before January 1st of year `y`, counted from 0001-01-01. */
  function DaysBeforeYear(y: int): int
    requires y >= 1
  {
    var p := y - 1;
    p * 365 + p / 4 - p / 100 + p / 400
  }

  datatype Date = Date(year: int, month: int, day: int)

  predicate ValidDate(d: Date) {
    && 1 <= d.year <= MaxYear
    && 1 <= d.month <= 12
    && 1 <= d.day <= DaysInMonth(d.year, d.month)
  }

  /** A value of `datetime.date`. */
  type CivilDate = d: Date | ValidDate(d) witness Date(1, 1, 1)

  /** A value of `datetime.datetime`, to the second. */
  datatype DateTime = DateTime(date: CivilDate, hour: int, minute: int, second: int)

  predicate ValidTime(t: DateTime) {
    0 <= t.hour < 24 && 0 <= t.minute < 60 && 0 <= t.second < 60
  }

  type CivilDateTime = t: DateTime | ValidTime(t) witness DateTime(Date(1, 1, 1), 0, 0, 0)

  lemma NextMonth(y: int, m: int)
    requires 1 <= m < 12
    ensures DaysBeforeMonth(y, m + 1) == DaysBeforeMonth(y, m) + DaysInMonth(y, m)
  {
  }

  lemma MonthsFillYear(y: int, m: int)
    requires 1 <= m <= 12
    ensures DaysBeforeMonth(y, m) + DaysInMonth(y, m) <= DaysInYear(y)
    ensures m == 12 ==> DaysBeforeMonth(y, m) + DaysInMonth(y, m) == DaysInYear(y)
  {
  }

  /** Going from `p - 1` to `p` crosses a multiple of `k` exactly when `k` divides `p`. */
  lemma QuotientStep(p: int, k: int)
    requires p >= 1 && (k == 4 || k == 100 || k == 400)
    ensures p / k - (p - 1) / k == if p % k == 0 then 1 else 0
  {
  }

  lemma NextYear(y: int)
    requires y >= 1
    ensures DaysBeforeYear(y + 1) == DaysBeforeYear(y) + DaysInYear(y)
  {
    QuotientStep(y, 4);
    QuotientStep(y, 100);
    QuotientStep(y, 400);
    CenturyDivisible(y);
    var leap, c4, c100, c400 := IsLeap(y), y % 4 == 0, y % 100 == 0, y % 400 == 0;
    assert leap <==> c4 && (!c100 || c400);
    assert c400 ==> c100 && c100 ==> c4;
  }

  /** A multiple of 400 is a multiple of 100, and a multiple of 100 one of 4. */
  lemma CenturyDivisible(y: int)
    ensures y % 400 == 0 ==> y % 100 == 0
    ensures y % 100 == 0 ==> y % 4 == 0
  {
    if y % 400 == 0 {
      var q := y / 400;
      assert y == 100 * (4 * q);
    }
    if y % 100 == 0 {
      var q := y / 100;
      assert y == 4 * (25 * q);
    }
  }

  lemma YearsIncrease(a: int, b: int)
    requires 1 <= a <= b
    ensures DaysBeforeYear(a) + 365 * (b - a) <= DaysBeforeYear(b)
    decreases b - a
  {
    if a < b {
      NextYear(a);
      YearsIncrease(a + 1, b);
    }
  }

  /** The day number of `d`: 0001-01-01 is day 1 (`date.toordinal()`). */
  function Ordinal(d: CivilDate): (n: int)
    ensures DaysBeforeYear(d.year) < n <= DaysBeforeYear(d.year) + DaysInYear(d.year)
    ensures 1 <= n <= MaxOrdinal
  {
    MonthsFillYear(d.year, d.month);
    NextYear(d.year);
    YearsIncrease(d.year + 1, MaxYear + 1);
    DaysBeforeYear(d.year) + DaysBeforeMonth(d.year, d.month) + d.day
  }

  /** The year in which day `n` falls, searching upwards from year `y`. */
  function YearOf(n: int, y: int): (r: int)
    requires 1 <= y && DaysBeforeYear(y) < n
    ensures y <= r && DaysBeforeYear(r) < n <= DaysBeforeYear(r) + DaysInYear(r)
    decreases n - DaysBeforeYear(y)
  {
    NextYear(y);
    if n <= DaysBeforeYear(y) + DaysInYear(y) then y else YearOf(n, y + 1)
  }

  /** The month of year `y` in which its day `k` (1-based) falls, searching upwards from month `m`. */
  function MonthOf(y: int, k: int, m: int): (r: int)
    requires 1 <= m <= 12 && DaysBeforeMonth(y, m) < k <= DaysInYear(y)
    ensures m <= r <= 12 && DaysBeforeMonth(y, r) < k <= DaysBeforeMonth(y, r) + DaysInMonth(y, r)
    decreases 12 - m
  {
    MonthsFillYear(y, m);
    if k <= DaysBeforeMonth(y, m) + DaysInMonth(y, m) then m
    else NextMonth(y, m); MonthOf(y, k, m + 1)
  }

  /** The date whose ordinal is `n` (`date.fromordinal(n)`). */
  function FromOrdinal(n: int): (d: CivilDate)
    requires 1 <= n <= MaxOrdinal
    ensures Ordinal(d) == n
  {
    var y := YearOf(n, 1);
    assert y <= MaxYear by {
      if y > MaxYear { YearsIncrease(MaxYear + 1, y); }
    }
    var k := n - DaysBeforeYear(y);
    var m := MonthOf(y, k, 1);
    Date(y, m, k - DaysBeforeMonth(y, m))
  }

  /** Distinct dates have distinct ordinals. */
  lemma OrdinalInjective(a: CivilDate, b: CivilDate)
    requires Ordinal(a) == Ordinal(b)
    ensures a == b
  {
    OrdinalSameYear(a, b);
    if a.month != b.month {
      MonthsBefore(a.year, a.month, b.month);
      MonthsBefore(a.year, b.month, a.month);
    }
  }

  lemma OrdinalSameYear(a: CivilDate, b: CivilDate)
    requires Ordinal(a) == Ordinal(b)
    ensures a.year == b.year
  {
    if a.year < b.year {
      YearEndsBefore(a.year, b.year);
    } else if b.year < a.year {
      YearEndsBefore(b.year, a.year);
    }
  }

  /** Every day of year `y` comes before the first day of any later year `z`. */
  lemma YearEndsBefore(y: int, z: int)
    requires 1 <= y < z
    ensures DaysBeforeYear(y) + DaysInYear(y) <= DaysBeforeYear(z)
  {
    NextYear(y);
    YearsIncrease(y + 1, z);
  }

  lemma MonthsBefore(y: int, m: int, m': int)
    requires 1 <= m < m' <= 12
    ensures DaysBeforeMonth(y, m) + DaysInMonth(y, m) <= DaysBeforeMonth(y, m')
  {
  }

  /** `d + timedelta(days=days)`: `None` where Python raises `OverflowError`
      because the sum falls outside 0001-01-01 .. 9999-12-31. */
  function AddDays(d: CivilDate, days: int): (r: Option<CivilDate>)
    ensures r.Some? <==> 1 <= Ordinal(d) + days <= MaxOrdinal
    ensures r.Some? ==> Ordinal(r.value) == Ordinal(d) + days
  {
    var n := Ordinal(d) + days;
    if 1 <= n <= MaxOrdinal then Some(FromOrdinal(n)) else None
  }

  /** `t.strftime('%Y-%m-%d-%H-%M-%S')`. */
  function FormatStamp(t: CivilDateTime): string {
    Pad(t.date.year, 4) + "-" + Pad(t.date.month, 2) + "-" + Pad(t.date.day, 2) + "-"
      + Pad(t.hour, 2) + "-" + Pad(t.minute, 2) + "-" + Pad(t.second, 2)
  }

  /** `d.strftime('%m-%d-%Y')`. */
  function FormatMonthDayYear(d: CivilDate): string {
    Pad(d.month, 2) + "-" + Pad(d.day, 2) + "-" + Pad(d.year, 4)
  }

  /** Reads back a field layout of fixed-width digit groups: `MM-DD-YYYY`. */
  function ParseMonthDayYear(s: string): Option<Date> {
    if |s| == 10 && s[2] == '-' && s[5] == '-' && AllDigits(s[..2]) && AllDigits(s[3..5]) && AllDigits(s[6..])
    then Some(Date(Value(s[6..]), Value(s[..2]), Value(s[3..5])))
    else None
  }

  /** Reads back `YYYY-MM-DD-HH-MM-SS`. */
  function ParseStamp(s: string): Option<(Date, int, int, int)> {
    if && |s| == 19 && s[4] == '-' && s[7] == '-' && s[10] == '-' && s[13] == '-' && s[16] == '-'
       && AllDigits(s[..4]) && AllDigits(s[5..7]) && AllDigits(s[8..10])
       && AllDigits(s[11..13]) && AllDigits(s[14..16]) && AllDigits(s[17..])
    then Some((Date(Value(s[..4]), Value(s[5..7]), Value(s[8..10])), Value(s[11..13]), Value(s[14..16]), Value(s[17..])))
    else None
  }

  /** The `MM-DD-YYYY` text names exactly the date it was made from. */
  lemma ParseFormatMonthDayYear(d: CivilDate)
    ensures ParseMonthDayYear(FormatMonthDayYear(d)) == Some(d)
  {
    var mm, dd, yyyy := Pad(d.month, 2), Pad(d.day, 2), Pad(d.year, 4);
    var s := FormatMonthDayYear(d);
    assert s[..2] == mm && s[3..5] == dd && s[6..] == yyyy;
  }

  /** The `YYYY-MM-DD-HH-MM-SS` text names exactly the instant it was made from. */
  lemma ParseFormatStamp(t: CivilDateTime)
    ensures ParseStamp(FormatStamp(t)) == Some((t.date, t.hour, t.minute, t.second))
  {
    var s := FormatStamp(t);
    assert s[..4] == Pad(t.date.year, 4);
    assert s[5..7] == Pad(t.date.month, 2);
    assert s[8..10] == Pad(t.date.day, 2);
    assert s[11..13] == Pad(t.hour, 2);
    assert s[14..16] == Pad(t.minute, 2);
    assert s[17..] == Pad(t.second, 2);
  }
}
