/** Instants, fixed-offset zones and the proleptic Gregorian calendar that Go's
    `time` package uses. A `Time` is an instant (nanoseconds since
    1970-01-01T00:00:00Z) together with the UTC offset of the location it is
    expressed in; `In` changes only the offset, `Before` compares only the instant. */
module Chrono {

  const NanosPerSecond := 1_000_000_000
  const SecondsPerDay := 86_400
  const NanosPerDay := 86_400_000_000_000

  datatype Time = Time(nanos: int, offset: int)

  /** A location reduced to its name and a fixed offset in seconds east of UTC. */
  datatype Zone = Zone(name: string, offset: int)

  const UTC := Zone("UTC", 0)

  /** Go's zero `time.Time`: 0001-01-01T00:00:00Z. */
  const ZeroTime := Time(-62_135_596_800 * NanosPerSecond, 0)

  /** `t.In(loc)`: the same instant, shown in `loc`. */
  function In(t: Time, loc: Zone): (r: Time)
    ensures r.nanos == t.nanos && r.offset == loc.offset
  {
    Time(t.nanos, loc.offset)
  }

  /** `a.Before(b)` compares instants only. */
  predicate Before(a: Time, b: Time) {
    a.nanos < b.nanos
  }

  predicate IsZero(t: Time) {
    t.nanos == ZeroTime.nanos
  }

  function AddSeconds(t: Time, seconds: int): (r: Time)
    ensures r.offset == t.offset && r.nanos - t.nanos == seconds * NanosPerSecond
  {
    Time(t.nanos + seconds * NanosPerSecond, t.offset)
  }

  predicate IsLeap(year: int) {
    year % 4 == 0 && (year % 100 != 0 || year % 400 == 0)
  }

  function YearLength(year: int): int {
    if IsLeap(year) then 366 else 365
  }

  function DaysIn(month: int, year: int): int
    requires 1 <= month <= 12
  {
    if month == 2 then (if IsLeap(year) then 29 else 28)
    else if month == 4 || month == 6 || month == 9 || month == 11 then 30
    else 31
  }

  /** Days in the months of `year` before `month`. */
  function DaysBeforeMonth(month: int, year: int): int
    requires 1 <= month <= 13
  {
    var common :=
      [0, 31, 59, 90, 120, 151, 181, 212, 243, 273, 304, 334, 365][month - 1];
    if month > 2 && IsLeap(year) then common + 1 else common
  }

  lemma DaysBeforeNextMonth(month: int, year: int)
    requires 1 <= month <= 12
    ensures DaysBeforeMonth(month + 1, year) == DaysBeforeMonth(month, year) + DaysIn(month, year)
    ensures DaysBeforeMonth(13, year) == YearLength(year)
  {
  }

  /** Days from 1970-01-01 to the first of January of `year`. */
  function DaysBeforeYear(year: int): int
    decreases if year >= 1970 then year - 1970 else 1970 - year
  {
    if year == 1970 then 0
    else if year > 1970 then DaysBeforeYear(year - 1) + YearLength(year - 1)
    else DaysBeforeYear(year + 1) - YearLength(year)
  }

  datatype Date = Date(year: int, month: int, day: int)

  predicate ValidDate(d: Date) {
    1 <= d.month <= 12 && 1 <= d.day <= DaysIn(d.month, d.year)
  }

  /** Days from 1970-01-01 to `d`. */
  function DaysFromCivil(d: Date): int
    requires ValidDate(d)
  {
    DaysBeforeYear(d.year) + DaysBeforeMonth(d.month, d.year) + d.day - 1
  }

  /** Walks from January 1 of `year`, `rest` days on, to the year that day
      falls in and its day of the year. */
  function YearOf(year: int, rest: int): (r: (int, int))
    ensures 0 <= r.1 < YearLength(r.0)
    ensures DaysBeforeYear(r.0) + r.1 == DaysBeforeYear(year) + rest
    decreases if rest >= 0 then rest else 400 - rest
  {
    if 0 <= rest < YearLength(year) then (year, rest)
    else if rest >= YearLength(year) then YearOf(year + 1, rest - YearLength(year))
    else YearOf(year - 1, rest + YearLength(year - 1))
  }

  /** Walks from the first day of `month` to the month that day `rest` of it
      falls in. */
  function MonthOf(year: int, month: int, rest: int): (r: Date)
    requires 1 <= month <= 12 && 0 <= rest
    requires DaysBeforeMonth(month, year) + rest < YearLength(year)
    ensures ValidDate(r) && r.year == year
    ensures DaysBeforeMonth(r.month, year) + r.day - 1 == DaysBeforeMonth(month, year) + rest
    decreases 12 - month
  {
    DaysBeforeNextMonth(month, year);
    if rest < DaysIn(month, year) then Date(year, month, rest + 1)
    else MonthOf(year, month + 1, rest - DaysIn(month, year))
  }

  /** The calendar date `days` days after 1970-01-01. */
  function CivilFromDays(days: int): (r: Date)
    ensures ValidDate(r) && DaysFromCivil(r) == days
  {
    var (year, dayOfYear) := YearOf(1970, days);
    DaysBeforeNextMonth(12, year);
    MonthOf(year, 1, dayOfYear)
  }

  lemma {:induction false} DaysBeforeYearGrows(y1: int, y2: int)
    requires y1 < y2
    ensures DaysBeforeYear(y2) >= DaysBeforeYear(y1) + YearLength(y1)
    decreases y2 - y1
  {
    if y1 + 1 < y2 {
      DaysBeforeYearGrows(y1, y2 - 1);
      DaysBeforeYearGrows(y2 - 1, y2);
    }
  }

  /** Each day number names exactly one date: `CivilFromDays` inverts `DaysFromCivil`. */
  lemma CivilFromDaysInverts(d: Date)
    requires ValidDate(d)
    ensures CivilFromDays(DaysFromCivil(d)) == d
  {
    var r := CivilFromDays(DaysFromCivil(d));
    DaysBeforeNextMonth(d.month, d.year);
    DaysBeforeNextMonth(r.month, r.year);
    DaysBeforeNextMonth(12, d.year);
    DaysBeforeNextMonth(12, r.year);
    if r.year < d.year {
      DaysBeforeYearGrows(r.year, d.year);
    } else if d.year < r.year {
      DaysBeforeYearGrows(d.year, r.year);
    }
    assert r.year == d.year;
    if r.month < d.month {
      MonthsDistinct(r.month, d.month, d.year);
    } else if d.month < r.month {
      MonthsDistinct(d.month, r.month, d.year);
    }
  }

  lemma MonthsDistinct(m1: int, m2: int, year: int)
    requires 1 <= m1 < m2 <= 12
    ensures DaysBeforeMonth(m2, year) >= DaysBeforeMonth(m1, year) + DaysIn(m1, year)
  {
  }

  /** Go's `Weekday`, Sunday = 0; 1970-01-01 was a Thursday. */
  function WeekdayOfDay(days: int): (r: int)
    ensures 0 <= r < 7
  {
    (days + 4) % 7
  }

  /** Seconds east of the epoch on the wall clock of `t`'s zone. */
  function LocalSeconds(t: Time): int {
    t.nanos / NanosPerSecond + t.offset
  }

  /** The number of the calendar day `t` falls on in its own zone. */
  function LocalDay(t: Time): int {
    LocalSeconds(t) / SecondsPerDay
  }

  function Weekday(t: Time): (r: int)
    ensures 0 <= r < 7
  {
    WeekdayOfDay(LocalDay(t))
  }

  /** `time.Date(y, m, d, 0, 0, 0, 0, loc)` for the day number `day`: midnight
      on that day in a zone with offset `offset`. */
  function Midnight(day: int, offset: int): (r: Time)
    ensures r.offset == offset
    ensures LocalSeconds(r) == day * SecondsPerDay
  {
    Time((day * SecondsPerDay - offset) * NanosPerSecond, offset)
  }
}
