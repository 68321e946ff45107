/** The proleptic Gregorian dates of Python's `datetime.date`, with their ordinals and weekdays. */
module Calendar {

  const SECONDS_PER_DAY := 86400
  // date(1970, 1, 1).toordinal()
  const EPOCH_ORDINAL := 719163

  predicate IsLeap(year: int) {
    year % 4 == 0 && (year % 100 != 0 || year % 400 == 0)
  }

  function DaysInMonth(year: int, month: int): (days: int)
    requires 1 <= month <= 12
    ensures 28 <= days <= 31
  {
    if month == 2 then (if IsLeap(year) then 29 else 28)
    else if month in {4, 6, 9, 11} then 30 else 31
  }

  datatype RawDate = Date(year: int, month: int, day: int)

  type Date = d: RawDate | 1 <= d.month <= 12 && 1 <= d.day <= DaysInMonth(d.year, d.month)
    witness Date(1970, 1, 1)

  function DaysBeforeYear(year: int): int {
    365 * (year - 1) + (year - 1) / 4 - (year - 1) / 100 + (year - 1) / 400
  }

  function DaysBeforeMonth(year: int, month: int): int
    requires 1 <= month <= 12
  {
    [0, 31, 59, 90, 120, 151, 181, 212, 243, 273, 304, 334][month - 1]
    + if month > 2 && IsLeap(year) then 1 else 0
  }

  /** `date.toordinal()`. */
  function Ordinal(d: Date): int {
    DaysBeforeYear(d.year) + DaysBeforeMonth(d.year, d.month) + d.day
  }

  /** `date.isoweekday()` of the day with this ordinal: Monday is 1, Sunday is 7. */
  function IsoWeekday(ordinal: int): (w: int)
    ensures 1 <= w <= 7
  {
    (ordinal + 6) % 7 + 1
  }

  /** Midnight UTC at the start of the day, in seconds since the epoch. */
  function DayStart(d: Date): int {
    (Ordinal(d) - EPOCH_ORDINAL) * SECONDS_PER_DAY
  }

  function DayEnd(d: Date): int {
    DayStart(d) + SECONDS_PER_DAY
  }

  /** `d - timedelta(days=1)`. */
  function PreviousDay(d: Date): Date {
    if d.day > 1 then Date(d.year, d.month, d.day - 1)
    else if d.month > 1 then Date(d.year, d.month - 1, DaysInMonth(d.year, d.month - 1))
    else Date(d.year - 1, 12, 31)
  }

  lemma DivisionStep(y: int, k: int)
    requires k in {4, 100, 400}
    ensures y / k == (y - 1) / k + if y % k == 0 then 1 else 0
  {
  }

  lemma CenturiesDivide(y: int)
    ensures y % 400 == 0 ==> y % 100 == 0
    ensures y % 100 == 0 ==> y % 4 == 0
  {
  }

  lemma YearLength(year: int)
    ensures DaysBeforeYear(year + 1) == DaysBeforeYear(year) + if IsLeap(year) then 366 else 365
  {
    var y := year;
    DivisionStep(y, 4);
    DivisionStep(y, 100);
    DivisionStep(y, 400);
    CenturiesDivide(y);
    var a, b, c := y / 4, y / 100, y / 400;
    assert DaysBeforeYear(y + 1) == 365 * y + a - b + c;
  }

  lemma PreviousDayOrdinal(d: Date)
    ensures Ordinal(PreviousDay(d)) == Ordinal(d) - 1
  {
    YearLength(d.year - 1);
  }

  /** 1 January 1970 was a Thursday, and the days of the week go round. */
  lemma WeekdaysGoRound(ordinal: int)
    ensures Ordinal(Date(1970, 1, 1)) == 719163 && IsoWeekday(719163) == 4
    ensures IsoWeekday(ordinal + 1) == if IsoWeekday(ordinal) == 7 then 1 else IsoWeekday(ordinal) + 1
  {
  }
}
