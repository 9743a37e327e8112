/**
 * Python's proleptic Gregorian calendar as `datetime.date` computes it: a date
 * is identified with its ordinal (`date.toordinal()`, where 1 January of year 1
 * is day 1), and `date.weekday()` is `(ordinal + 6) % 7` with Monday as 0.
 * Month names are those of `calendar.month_name` and of `strftime("%B")` in
 * the English (C) locale.
 */
module Calendar {

  const MinYear: int := 1
  const MaxYear: int := 9999

  const MonthNames: seq<string> := [
    "January", "February", "March", "April", "May", "June",
    "July", "August", "September", "October", "November", "December"
  ]

  datatype Date = Date(year: int, month: int, day: int)

  predicate IsLeap(y: int)
  {
    y % 4 == 0 && (y % 100 != 0 || y % 400 == 0)
  }

  function DaysInYear(y: int): int
  {
    if IsLeap(y) then 366 else 365
  }

  function DaysInMonth(y: int, m: int): (n: int)
    requires 1 <= m <= 12
    ensures 28 <= n <= 31
  {
    if m == 2 then (if IsLeap(y) then 29 else 28)
    else if m == 4 || m == 6 || m == 9 || m == 11 then 30
    else 31
  }

  /** Days of year `y` that come before the first day of month `m` (13 for the year's end). */
  function DaysBeforeMonth(y: int, m: int): (n: int)
    requires 1 <= m <= 13
    ensures m == 1 ==> n == 0
    ensures m == 13 ==> n == DaysInYear(y)
  {
    [0, 31, 59, 90, 120, 151, 181, 212, 243, 273, 304, 334, 365][m - 1]
    + (if m > 2 && IsLeap(y) then 1 else 0)
  }

  /** The cumulative table agrees with the month lengths. */
  lemma DaysBeforeMonthStep(y: int, m: int)
    requires 1 <= m <= 12
    ensures DaysBeforeMonth(y, m + 1) == DaysBeforeMonth(y, m) + DaysInMonth(y, m)
  {
  }

  /** Days before 1 January of year `y`. */
  function DaysBeforeYear(y: int): int
    requires y >= 1
  {
    var y1 := y - 1;
    y1 * 365 + y1 / 4 - y1 / 100 + y1 / 400
  }

  predicate ValidDate(d: Date)
  {
    && MinYear <= d.year <= MaxYear
    && 1 <= d.month <= 12
    && 1 <= d.day <= DaysInMonth(d.year, d.month)
  }

  /** The ordinal of the first and the last day of year `y`. */
  function FirstDay(y: int): int
    requires y >= 1
  {
    DaysBeforeYear(y) + 1
  }

  function LastDay(y: int): int
    requires y >= 1
  {
    DaysBeforeYear(y) + DaysInYear(y)
  }

  /** `date.toordinal()`. */
  function ToOrdinal(d: Date): (n: int)
    requires ValidDate(d)
    ensures FirstDay(d.year) <= n <= LastDay(d.year)
  {
    DaysBeforeMonthStep(d.year, d.month);
    DaysBeforeMonthMonotone(d.year, d.month + 1, 13);
    DaysBeforeYear(d.year) + DaysBeforeMonth(d.year, d.month) + d.day
  }

  /** `date.weekday()` of the day with ordinal `n`: Monday is 0, Sunday is 6. */
  function Weekday(n: int): (w: int)
    ensures 0 <= w < 7
  {
    (n + 6) % 7
  }

  /** The month holding day `doy` (1-based) of year `y`, searching from month `m`. */
  function MonthFrom(y: int, doy: int, m: int): (r: int)
    requires 1 <= m <= 12
    requires DaysBeforeMonth(y, m) < doy <= DaysInYear(y)
    ensures m <= r <= 12
    ensures DaysBeforeMonth(y, r) < doy <= DaysBeforeMonth(y, r + 1)
    decreases 12 - m
  {
    DaysBeforeMonthStep(y, m);
    if doy <= DaysBeforeMonth(y, m + 1) then m else MonthFrom(y, doy, m + 1)
  }

  lemma {:induction false} DaysBeforeMonthMonotone(y: int, a: int, b: int)
    requires 1 <= a <= b <= 13
    ensures DaysBeforeMonth(y, a) + 28 * (b - a) <= DaysBeforeMonth(y, b)
    decreases b - a
  {
    if a < b {
      DaysBeforeMonthStep(y, a);
      DaysBeforeMonthMonotone(y, a + 1, b);
    }
  }

  /** A day of the year falls in exactly one month. */
  lemma MonthUnique(y: int, doy: int, m: int, m': int)
    requires 1 <= m <= 12 && 1 <= m' <= 12
    requires DaysBeforeMonth(y, m) < doy <= DaysBeforeMonth(y, m + 1)
    requires DaysBeforeMonth(y, m') < doy <= DaysBeforeMonth(y, m' + 1)
    ensures m == m'
  {
    if m < m' {
      DaysBeforeMonthMonotone(y, m + 1, m');
    } else if m' < m {
      DaysBeforeMonthMonotone(y, m' + 1, m);
    }
  }

  /**
   * The date whose ordinal is `n`, for a day `n` of year `y`
   * (`date.fromordinal(n)` when its year is known).
   */
  function FromOrdinal(y: int, n: int): (d: Date)
    requires MinYear <= y <= MaxYear
    requires FirstDay(y) <= n <= LastDay(y)
    ensures ValidDate(d) && d.year == y
    ensures ToOrdinal(d) == n
  {
    var doy := n - DaysBeforeYear(y);
    var m := MonthFrom(y, doy, 1);
    DaysBeforeMonthStep(y, m);
    Date(y, m, doy - DaysBeforeMonth(y, m))
  }

  /** `FromOrdinal` inverts `ToOrdinal`: a valid date is determined by its ordinal and year. */
  lemma FromToOrdinal(d: Date)
    requires ValidDate(d)
    ensures FromOrdinal(d.year, ToOrdinal(d)) == d
  {
    var y := d.year;
    var doy := ToOrdinal(d) - DaysBeforeYear(y);
    assert doy == DaysBeforeMonth(y, d.month) + d.day;
    MonthOfDayOfYear(y, d.month, d.day);
  }

  /** The month search finds the month a day of the year was counted in. */
  lemma MonthOfDayOfYear(y: int, m: int, day: int)
    requires 1 <= m <= 12 && 1 <= day <= DaysInMonth(y, m)
    ensures DaysBeforeMonth(y, m) < DaysBeforeMonth(y, m) + day <= DaysInYear(y)
    ensures MonthFrom(y, DaysBeforeMonth(y, m) + day, 1) == m
  {
    var doy := DaysBeforeMonth(y, m) + day;
    DaysBeforeMonthStep(y, m);
    DaysBeforeMonthMonotone(y, m + 1, 13);
    MonthUnique(y, doy, m, MonthFrom(y, doy, 1));
  }

  /** `strftime("%B")` of the day with ordinal `n` in year `y`. */
  function MonthNameOf(y: int, n: int): (name: string)
    requires MinYear <= y <= MaxYear
    requires FirstDay(y) <= n <= LastDay(y)
    ensures name in MonthNames
  {
    MonthNames[FromOrdinal(y, n).month - 1]
  }

  /** The position of `name` in the month list (1-based), if it is a month name. */
  function MonthIndex(name: string): (r: int)
    ensures 0 <= r <= 12
    ensures r == 0 <==> name !in MonthNames
    ensures r > 0 ==> MonthNames[r - 1] == name
  {
    if name == "January" then 1 else if name == "February" then 2
    else if name == "March" then 3 else if name == "April" then 4
    else if name == "May" then 5 else if name == "June" then 6
    else if name == "July" then 7 else if name == "August" then 8
    else if name == "September" then 9 else if name == "October" then 10
    else if name == "November" then 11 else if name == "December" then 12
    else 0
  }

  /** Month names are pairwise distinct, so a name determines its month. */
  lemma MonthIndexOfName(m: int)
    requires 1 <= m <= 12
    ensures MonthIndex(MonthNames[m - 1]) == m
  {
  }
}
