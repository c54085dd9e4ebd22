/** The proleptic Gregorian calendar that `Date#getFullYear` and
    `Date#getMonth` read a timestamp in, counted in whole days from
    1970-01-01. */
module Calendar {
  import opened Model

  /** A calendar date; `month` runs from 1 to 12. */
  datatype Civil = Civil(year: int, month: int, day: int)

  /** What `getFullYear()` and `getMonth()` report: the month is 0-based. */
  datatype YearMonth = YearMonth(year: int, month0: int)

  predicate IsLeap(y: int)
  {
    y % 4 == 0 && (y % 100 != 0 || y % 400 == 0)
  }

  function DaysInYear(y: int): int
  {
    if IsLeap(y) then 366 else 365
  }

  /** Days from 1970-01-01 to 1 January of year `y`. */
  function YearStart(y: int): int
    decreases if y >= 1970 then y - 1970 else 1970 - y
  {
    if y == 1970 then 0
    else if y > 1970 then YearStart(y - 1) + DaysInYear(y - 1)
    else YearStart(y + 1) - DaysInYear(y)
  }

  lemma YearStartStep(y: int)
    ensures YearStart(y + 1) == YearStart(y) + DaysInYear(y)
  {
  }

  /** Later years start later. */
  lemma {:induction false} YearStartMonotone(a: int, b: int)
    requires a < b
    ensures YearStart(a) < YearStart(b)
    decreases b - a
  {
    YearStartStep(b - 1);
    if a < b - 1 {
      YearStartMonotone(a, b - 1);
    }
  }

  /** The year containing day `z`, searched upwards from year `y`. */
  function YearUp(z: int, y: int): (r: int)
    requires YearStart(y) <= z
    ensures YearStart(r) <= z < YearStart(r + 1)
    decreases z - YearStart(y)
  {
    YearStartStep(y);
    if z < YearStart(y + 1) then y else YearUp(z, y + 1)
  }

  /** The year containing day `z`, searched downwards from year `y`. */
  function YearDown(z: int, y: int): (r: int)
    requires z < YearStart(y + 1)
    ensures YearStart(r) <= z < YearStart(r + 1)
    decreases YearStart(y + 1) - z
  {
    YearStartStep(y);
    if YearStart(y) <= z then y else YearDown(z, y - 1)
  }

  function YearOf(z: int): (r: int)
    ensures YearStart(r) <= z < YearStart(r + 1)
  {
    if z >= 0 then YearUp(z, 1970) else YearDown(z, 1969)
  }

  /** Days from 1 January to the first day of `month` (1 .. 13, where 13
      stands for the next 1 January). */
  function MonthStart(y: int, month: int): (r: int)
    requires 1 <= month <= 13
    ensures month == 13 ==> r == DaysInYear(y)
  {
    var before := [0, 31, 59, 90, 120, 151, 181, 212, 243, 273, 304, 334, 365];
    before[month - 1] + (if month > 2 && IsLeap(y) then 1 else 0)
  }

  function MonthLength(y: int, month: int): (r: int)
    requires 1 <= month <= 12
    ensures 28 <= r <= 31
  {
    MonthStart(y, month + 1) - MonthStart(y, month)
  }

  /** The month containing day `doy` of year `y`, searched from `month`. */
  function MonthIn(y: int, doy: int, month: int): (r: int)
    requires 1 <= month <= 12 && MonthStart(y, month) <= doy < DaysInYear(y)
    ensures month <= r <= 12
    ensures MonthStart(y, r) <= doy < MonthStart(y, r + 1)
    decreases 12 - month
  {
    if month == 12 || doy < MonthStart(y, month + 1) then month else MonthIn(y, doy, month + 1)
  }

  predicate ValidCivil(c: Civil)
  {
    1 <= c.month <= 12 && 1 <= c.day <= MonthLength(c.year, c.month)
  }

  /** The date of day `z` counted from 1970-01-01. */
  function CivilFromDays(z: int): (c: Civil)
    ensures ValidCivil(c)
  {
    var y := YearOf(z);
    YearStartStep(y);
    var m := MonthIn(y, z - YearStart(y), 1);
    Civil(y, m, z - YearStart(y) - MonthStart(y, m) + 1)
  }

  /** The day number of a date, counted from 1970-01-01. */
  function DaysFromCivil(c: Civil): int
    requires ValidCivil(c)
  {
    YearStart(c.year) + MonthStart(c.year, c.month) + c.day - 1
  }

  /** Decoding a day number and encoding the date again gives it back. */
  lemma DaysRoundTrip(z: int)
    ensures DaysFromCivil(CivilFromDays(z)) == z
  {
  }

  /** Encoding a valid date and decoding it again gives it back. */
  lemma CivilRoundTrip(c: Civil)
    requires ValidCivil(c)
    ensures CivilFromDays(DaysFromCivil(c)) == c
  {
    var z := DaysFromCivil(c);
    var r := CivilFromDays(z);
    YearStartStep(c.year);
    SameYear(z, c.year, r.year);
    SameMonth(c.year, z - YearStart(c.year), c.month, r.month);
  }

  lemma SameYear(z: int, a: int, b: int)
    requires YearStart(a) <= z < YearStart(a + 1)
    requires YearStart(b) <= z < YearStart(b + 1)
    ensures a == b
  {
    if a < b {
      YearStartMonotone(a + 1, b + 1);
      if a + 1 < b {
        YearStartMonotone(a + 1, b);
      }
    } else if b < a {
      YearStartMonotone(b + 1, a + 1);
      if b + 1 < a {
        YearStartMonotone(b + 1, a);
      }
    }
  }

  lemma SameMonth(y: int, doy: int, a: int, b: int)
    requires 1 <= a <= 12 && 1 <= b <= 12
    requires MonthStart(y, a) <= doy < MonthStart(y, a + 1)
    requires MonthStart(y, b) <= doy < MonthStart(y, b + 1)
    ensures a == b
  {
  }

  /** The local calendar month of a timestamp in milliseconds, for a zone
      `offsetMs` ahead of UTC. */
  function MonthOf(ms: int, offsetMs: int): (r: YearMonth)
    ensures 0 <= r.month0 < 12
    ensures var z := (ms + offsetMs) / DayMs;
      YearStart(r.year) + MonthStart(r.year, r.month0 + 1) <= z < YearStart(r.year) + MonthStart(r.year, r.month0 + 2)
  {
    var c := CivilFromDays((ms + offsetMs) / DayMs);
    YearMonth(c.year, c.month - 1)
  }

  /** Closed form of `YearStart`: 365 days a year plus one for each leap
      day before the year begins. */
  lemma {:induction false} YearStartClosed(y: int)
    ensures YearStart(y) == 365 * (y - 1970) + LeapsBefore(y) - LeapsBefore(1970)
    decreases if y >= 1970 then y - 1970 else 1970 - y
  {
    if y > 1970 {
      YearStartClosed(y - 1);
      LeapsStep(y - 1);
    } else if y < 1970 {
      YearStartClosed(y + 1);
      LeapsStep(y);
    }
  }

  /** Leap years before year `y`, counted from year 0. */
  function LeapsBefore(y: int): int
  {
    (y - 1) / 4 - (y - 1) / 100 + (y - 1) / 400
  }

  lemma LeapsStep(y: int)
    ensures LeapsBefore(y + 1) == LeapsBefore(y) + (if IsLeap(y) then 1 else 0)
  {
    QuotientStep4(y);
    QuotientStep100(y);
    QuotientStep400(y);
  }

  /** Going from `y - 1` to `y`, the quotient by 4 grows exactly when 4
      divides `y`; likewise for 100 and 400 below. */
  lemma QuotientStep4(y: int)
    ensures y / 4 - (y - 1) / 4 == if y % 4 == 0 then 1 else 0
  {
  }

  lemma QuotientStep100(y: int)
    ensures y / 100 - (y - 1) / 100 == if y % 100 == 0 then 1 else 0
  {
  }

  lemma QuotientStep400(y: int)
    ensures y / 400 - (y - 1) / 400 == if y % 400 == 0 then 1 else 0
  {
  }

  /** The epoch is 1 January 1970. */
  lemma EpochIsNewYear()
    ensures CivilFromDays(0) == Civil(1970, 1, 1)
  {
    assert ValidCivil(Civil(1970, 1, 1)) && DaysFromCivil(Civil(1970, 1, 1)) == 0;
    CivilRoundTrip(Civil(1970, 1, 1));
  }

  /** The day before the epoch is 31 December 1969. */
  lemma DayBeforeEpoch()
    ensures CivilFromDays(-1) == Civil(1969, 12, 31)
  {
    assert YearStart(1969) == -365;
    assert ValidCivil(Civil(1969, 12, 31)) && DaysFromCivil(Civil(1969, 12, 31)) == -1;
    CivilRoundTrip(Civil(1969, 12, 31));
  }

  /** Day 11016 is the leap day of 2000. */
  lemma LeapDay2000()
    ensures CivilFromDays(11016) == Civil(2000, 2, 29)
  {
    YearStartClosed(2000);
    assert YearStart(2000) == 10957;
    assert IsLeap(2000);
    CivilRoundTrip(Civil(2000, 2, 29));
  }
}
