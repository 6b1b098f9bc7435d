/** The slice of .NET `DateOnly`/`DateTime` that the monthly sales report uses (proleptic Gregorian calendar). */
module Dates {
  import opened Wrappers

  /** 100-nanosecond ticks in one day. */
  const TicksPerDay: int := 864_000_000_000

  predicate IsLeapYear(year: int)
  {
    (year % 4 == 0 && year % 100 != 0) || year % 400 == 0
  }

  function DaysInMonth(year: int, month: int): (r: int)
    requires 1 <= month <= 12
    ensures 28 <= r <= 31
    ensures month == 2 ==> (r == 29 <==> IsLeapYear(year))
  {
    if month == 2 then (if IsLeapYear(year) then 29 else 28)
    else if month == 4 || month == 6 || month == 9 || month == 11 then 30
    else 31
  }

  datatype DateOnlyValue = DateOnly(year: int, month: int, day: int)

  predicate ValidDate(d: DateOnlyValue)
  {
    1 <= d.year <= 9999 && 1 <= d.month <= 12 && 1 <= d.day <= DaysInMonth(d.year, d.month)
  }

  /** A calendar date; .NET refuses to construct any other. */
  type Date = d: DateOnlyValue | ValidDate(d) witness DateOnly(1, 1, 1)

  /** A date with the time of day counted in ticks since midnight. */
  datatype DateTimeValue = DateTime(year: int, month: int, day: int, ticks: int)

  predicate ValidDateTime(d: DateTimeValue)
  {
    ValidDate(DateOnly(d.year, d.month, d.day)) && 0 <= d.ticks < TicksPerDay
  }

  type DateTime = d: DateTimeValue | ValidDateTime(d) witness DateTime(1, 1, 1, 0)

  /** Chronological order of two instants (`a <= b`). */
  predicate AtOrBefore(a: DateTime, b: DateTime)
  {
    a.year < b.year
    || (a.year == b.year && a.month < b.month)
    || (a.year == b.year && a.month == b.month && a.day < b.day)
    || (a.year == b.year && a.month == b.month && a.day == b.day && a.ticks <= b.ticks)
  }

  /** `d.ToDateTime(TimeOnly.MinValue)`: midnight at the start of the day. */
  function AtMidnight(d: Date): (r: DateTime)
    ensures r.ticks == 0
  {
    DateTime(d.year, d.month, d.day, 0)
  }

  /** `d.AddMonths(1)`: same day in the next month, clamped to that month's length. */
  function AddOneMonth(d: Date): (r: Result<Date>)
    ensures r.Err? <==> d.year == 9999 && d.month == 12
  {
    var year := if d.month == 12 then d.year + 1 else d.year;
    var month := if d.month == 12 then 1 else d.month + 1;
    if year > 9999 then Err(ArgumentOutOfRange)
    else
      var day := if d.day <= DaysInMonth(year, month) then d.day else DaysInMonth(year, month);
      Ok(DateOnly(year, month, day))
  }

  /** `d.AddDays(-1)`: the previous calendar day. */
  function PreviousDay(d: Date): (r: Result<Date>)
    ensures r.Err? <==> d == DateOnly(1, 1, 1)
  {
    if d.day > 1 then Ok(DateOnly(d.year, d.month, d.day - 1))
    else if d.month > 1 then Ok(DateOnly(d.year, d.month - 1, DaysInMonth(d.year, d.month - 1)))
    else if d.year > 1 then Ok(DateOnly(d.year - 1, 12, 31))
    else Err(ArgumentOutOfRange)
  }

  /** `new DateOnly(d.Year, d.Month, 1)`. */
  function FirstDayOfMonth(d: Date): Date
  {
    DateOnly(d.year, d.month, 1)
  }

  /** `FirstDayOfMonth(d).AddMonths(1).AddDays(-1)`, which throws for December 9999. */
  function LastDayOfMonth(d: Date): Result<Date>
  {
    match AddOneMonth(FirstDayOfMonth(d))
    case Err(e) => Err(e)
    case Ok(next) => PreviousDay(next)
  }

  /** The two-step computation lands on the month's last calendar day, and fails only for December 9999. */
  lemma LastDayOfMonthIsMonthEnd(d: Date)
    ensures LastDayOfMonth(d).Err? <==> d.year == 9999 && d.month == 12
    ensures LastDayOfMonth(d).Ok? ==>
      LastDayOfMonth(d).value == DateOnly(d.year, d.month, DaysInMonth(d.year, d.month))
  {
  }

  /**
   * The report's window: at or after midnight of day 1 and at or before
   * midnight of the last day (Repository/AdminRepository.cs:168).
   */
  predicate InReportWindow(x: DateTime, first: Date, last: Date)
  {
    AtOrBefore(AtMidnight(first), x) && AtOrBefore(x, AtMidnight(last))
  }

  /**
   * What the window admits: an instant of the same month, except that on
   * the last day only midnight itself is in.
   */
  lemma {:induction false} ReportWindowOfMonth(x: DateTime, d: Date)
    requires !(d.year == 9999 && d.month == 12)
    ensures LastDayOfMonth(d).Ok?
    ensures InReportWindow(x, FirstDayOfMonth(d), LastDayOfMonth(d).value) <==>
      x.year == d.year && x.month == d.month
      && (x.day < DaysInMonth(d.year, d.month) || x.ticks == 0)
  {
    LastDayOfMonthIsMonthEnd(d);
  }
}
