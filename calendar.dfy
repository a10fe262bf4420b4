/** Dates of the ISO-8601 proleptic Gregorian calendar with the month and
    year arithmetic of `java.time.LocalDate`: adding months or years moves the
    (year, month) pair and then clamps the day to the length of the target
    month, and a result whose year leaves the supported range is an error
    (`DateTimeException`) rather than a date. */
module Calendar {
  import opened Wrappers

  /** The year range of `LocalDate` (`Year.MIN_VALUE` .. `Year.MAX_VALUE`). */
  const MIN_YEAR: int := -999_999_999
  const MAX_YEAR: int := 999_999_999

  datatype Date = Date(year: int, month: int, day: int)

  /** Proleptic Gregorian leap years. Dafny's `%` with a positive divisor is
      never negative, so the test is also right for years before 1. */
  predicate IsLeapYear(y: int)
  {
    y % 4 == 0 && (y % 100 != 0 || y % 400 == 0)
  }

  function LengthOfMonth(y: int, m: int): (n: int)
    ensures 28 <= n <= 31
    ensures m == 2 ==> (n == 29 <==> IsLeapYear(y))
  {
    if m == 2 then (if IsLeapYear(y) then 29 else 28)
    else if m == 4 || m == 6 || m == 9 || m == 11 then 30
    else 31
  }

  predicate InYearRange(y: int)
  {
    MIN_YEAR <= y <= MAX_YEAR
  }

  /** A value `LocalDate` can hold. */
  predicate ValidDate(d: Date)
  {
    InYearRange(d.year) && 1 <= d.month <= 12 && 1 <= d.day <= LengthOfMonth(d.year, d.month)
  }

  /** The values a `java.time.LocalDate` can hold. */
  type LocalDate = d: Date | ValidDate(d) witness Date(1970, 1, 1)

  /** Chronological order of dates (`LocalDate.isBefore`). */
  predicate Before(a: Date, b: Date)
  {
    a.year < b.year
    || (a.year == b.year && a.month < b.month)
    || (a.year == b.year && a.month == b.month && a.day < b.day)
  }

  function Min(a: int, b: int): int
  {
    if a <= b then a else b
  }

  /** Months elapsed since January of year 0 (`LocalDate`'s proleptic month). */
  function ProlepticMonth(d: Date): int
  {
    d.year * 12 + (d.month - 1)
  }

  /** The date in year `y`, month `m` whose day is `day`, or the last day of
      that month when the month is shorter. */
  function ResolvePreviousValid(y: int, m: int, day: int): Date
  {
    Date(y, m, Min(day, LengthOfMonth(y, m)))
  }

  /** `LocalDate.plusMonths`: the proleptic month moves by `months` and the
      day is clamped to the length of the target month; `None` exactly where
      Java throws `DateTimeException` because the target year is out of range. */
  function PlusMonths(d: LocalDate, months: int): (r: Option<LocalDate>)
    ensures r.None? <==> !InYearRange((ProlepticMonth(d) + months) / 12)
    ensures r.Some? ==> ProlepticMonth(r.value) == ProlepticMonth(d) + months
    ensures r.Some? ==> r.value.day == Min(d.day, LengthOfMonth(r.value.year, r.value.month))
  {
    if months == 0 then Some(d)
    else
      var total := ProlepticMonth(d) + months;
      var y := total / 12;
      if InYearRange(y) then Some(ResolvePreviousValid(y, total % 12 + 1, d.day)) else None
  }

  /** `LocalDate.plusYears`: the month is kept, the year moves by `years` and
      the day is clamped (29 February becomes 28 February in a common year);
      `None` exactly where Java throws `DateTimeException`. */
  function PlusYears(d: LocalDate, years: int): (r: Option<LocalDate>)
    ensures r.None? <==> !InYearRange(d.year + years)
    ensures r.Some? ==> r.value.year == d.year + years && r.value.month == d.month
    ensures r.Some? ==> r.value.day == Min(d.day, LengthOfMonth(r.value.year, r.value.month))
  {
    if years == 0 then Some(d)
    else
      var y := d.year + years;
      if InYearRange(y) then Some(ResolvePreviousValid(y, d.month, d.day)) else None
  }

  /** Adding at least one month gives a strictly later date. */
  lemma PlusMonthsIsLater(d: LocalDate, months: int)
    requires months >= 1 && PlusMonths(d, months).Some?
    ensures Before(d, PlusMonths(d, months).value)
  {
  }

  /** Adding at least one year gives a strictly later date. */
  lemma PlusYearsIsLater(d: LocalDate, years: int)
    requires years >= 1 && PlusYears(d, years).Some?
    ensures Before(d, PlusYears(d, years).value)
  {
  }

  /** Twelve months are one year: the two operations agree on every date,
      including their failures. */
  lemma TwelveMonthsIsOneYear(d: LocalDate)
    ensures PlusMonths(d, 12) == PlusYears(d, 1)
  {
  }

  /** The clamping cases of `java.time`. */
  lemma ClampingExamples()
    ensures PlusMonths(Date(2024, 1, 31), 1) == Some(Date(2024, 2, 29))
    ensures PlusMonths(Date(2023, 1, 31), 1) == Some(Date(2023, 2, 28))
    ensures PlusMonths(Date(2024, 8, 31), 6) == Some(Date(2025, 2, 28))
    ensures PlusMonths(Date(2024, 12, 15), 1) == Some(Date(2025, 1, 15))
    ensures PlusYears(Date(2024, 2, 29), 1) == Some(Date(2025, 2, 28))
    ensures PlusYears(Date(MAX_YEAR, 1, 1), 1) == None
  {
  }
}
