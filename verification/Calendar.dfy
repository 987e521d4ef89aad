/** Dates and UTC instants as chrono's `NaiveDate` and `DateTime<Utc>` carry them. */
module Calendar {

  datatype Date = Date(year: int, month: int, day: int)

  predicate IsLeapYear(year: int) {
    year % 4 == 0 && (year % 100 != 0 || year % 400 == 0)
  }

  function DaysInMonth(year: int, month: int): int {
    if month == 2 then (if IsLeapYear(year) then 29 else 28)
    else if month == 4 || month == 6 || month == 9 || month == 11 then 30
    else 31
  }

  predicate ValidDate(d: Date) {
    1 <= d.month <= 12 && 1 <= d.day <= DaysInMonth(d.year, d.month)
  }

  type Day = d: Date | ValidDate(d) witness Date(2000, 1, 1)

  predicate DateBefore(a: Date, b: Date) {
    a.year < b.year ||
    (a.year == b.year && (a.month < b.month || (a.month == b.month && a.day < b.day)))
  }

  predicate DateAtMost(a: Date, b: Date) {
    a == b || DateBefore(a, b)
  }

  /** A number that grows with the date; used only as a termination measure. */
  function Ordinal(d: Date): int {
    d.year * 372 + d.month * 31 + d.day
  }

  /** An instant: a day, a second of that day and the nanoseconds within that second. */
  datatype Stamp = Stamp(date: Date, second: int, nanos: int)

  /** The instants whose text form has a four-digit year. Leap seconds are not modelled. */
  predicate ValidStamp(s: Stamp) {
    && ValidDate(s.date) && 0 <= s.date.year <= 9999
    && 0 <= s.second < 86400 && 0 <= s.nanos < 1_000_000_000
  }

  type Instant = s: Stamp | ValidStamp(s) witness Stamp(Date(2000, 1, 1), 0, 0)

  predicate StampBefore(a: Stamp, b: Stamp) {
    DateBefore(a.date, b.date) ||
    (a.date == b.date && (a.second < b.second || (a.second == b.second && a.nanos < b.nanos)))
  }

  function YearStart(year: int): Stamp {
    Stamp(Date(year, 1, 1), 0, 0)
  }

  /** The instant lies in the first UTC second of a year. */
  predicate InFirstSecond(s: Stamp) {
    s.date.month == 1 && s.date.day == 1 && s.second == 0
  }

  lemma OrdinalMonotone(a: Date, b: Date)
    requires ValidDate(a) && ValidDate(b)
    ensures DateBefore(a, b) <==> Ordinal(a) < Ordinal(b)
  {
  }
}
