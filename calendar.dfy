/** Python's `date` and `datetime` values and the rule that `date(y, m, d)`
    and `datetime(...)` apply before they construct one. */
module Calendar {
  import opened Wrappers

  datatype Date = Date(year: int, month: int, day: int)

  /** A datetime; `offset` is the UTC offset in minutes of an aware value and
      `None` for a naive one. Offsets are carried, never converted. */
  datatype DateTime = DateTime(date: Date, hour: int, minute: int, second: int, offset: Option<int>)

  /** Gregorian leap years. */
  predicate IsLeapYear(y: int) {
    y % 4 == 0 && (y % 100 != 0 || y % 400 == 0)
  }

  function DaysInMonth(y: int, m: int): (n: int)
    requires 1 <= m <= 12
    ensures 28 <= n <= 31
  {
    if m == 2 then (if IsLeapYear(y) then 29 else 28)
    else if m == 4 || m == 6 || m == 9 || m == 11 then 30
    else 31
  }

  /** What `date(y, m, d)` accepts: year 1..9999, month 1..12 and a day
      within the month's length. */
  predicate ValidDate(d: Date) {
    1 <= d.year <= 9999 && 1 <= d.month <= 12 && 1 <= d.day <= DaysInMonth(d.year, d.month)
  }

  /** What `datetime(...)` accepts; an aware offset lies strictly within one
      day of UTC, as `timezone` demands. */
  predicate ValidDateTime(t: DateTime) {
    && ValidDate(t.date)
    && 0 <= t.hour <= 23 && 0 <= t.minute <= 59 && 0 <= t.second <= 59
    && (t.offset.Some? ==> -1440 < t.offset.value < 1440)
  }

  /** The value objects Python can hold: every `date` and `datetime` is valid. */
  type PyDate = d: Date | ValidDate(d) witness Date(1, 1, 1)
  type PyDateTime = t: DateTime | ValidDateTime(t) witness DateTime(Date(1, 1, 1), 0, 0, 0, None)

  /** `date(y, m, d)`, with the `ValueError` as `None`. */
  function MakeDate(y: int, m: int, d: int): (r: Option<PyDate>)
    ensures r.Some? <==> ValidDate(Date(y, m, d))
    ensures r.Some? ==> r.value == Date(y, m, d)
  {
    var date := Date(y, m, d);
    if ValidDate(date) then Some(date) else None
  }

  /** `datetime.combine(d, datetime.min.time())`: midnight, naive. */
  function Midnight(d: PyDate): (t: PyDateTime)
    ensures t.date == d && t.hour == 0 && t.minute == 0 && t.second == 0 && t.offset.None?
  {
    DateTime(d, 0, 0, 0, None)
  }

  /** February 29th exists exactly in leap years. */
  lemma LeapDay(y: int)
    requires 1 <= y <= 9999
    ensures MakeDate(y, 2, 29).Some? <==> IsLeapYear(y)
  {
  }

  function YearLength(y: int): int {
    DaysInMonth(y, 1) + DaysInMonth(y, 2) + DaysInMonth(y, 3) + DaysInMonth(y, 4)
    + DaysInMonth(y, 5) + DaysInMonth(y, 6) + DaysInMonth(y, 7) + DaysInMonth(y, 8)
    + DaysInMonth(y, 9) + DaysInMonth(y, 10) + DaysInMonth(y, 11) + DaysInMonth(y, 12)
  }

  /** The month lengths add up to the Gregorian year. */
  lemma YearLengthIsGregorian(y: int)
    ensures YearLength(y) == if IsLeapYear(y) then 366 else 365
  {
  }
}
