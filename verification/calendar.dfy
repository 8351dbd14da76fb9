/** Proleptic Gregorian calendar over naive timestamps.
    A timestamp is a whole number of minutes since 1970-01-01 00:00 (no time
    zone, no daylight saving, no leap seconds).  Day numbers count days since
    the same origin.  Weekdays follow the crontab convention: 0 is Sunday. */
module Calendar {

  const Epoch: int := 1970
  const MinutesPerHour: nat := 60
  const MinutesPerDay: nat := 1440

  predicate IsLeap(y: int) {
    y % 4 == 0 && (y % 100 != 0 || y % 400 == 0)
  }

  function YearLength(y: int): nat {
    if IsLeap(y) then 366 else 365
  }

  function MonthLength(y: int, m: int): nat {
    if m == 2 then (if IsLeap(y) then 29 else 28)
    else if m == 4 || m == 6 || m == 9 || m == 11 then 30
    else 31
  }

  /** Days of year `y` that come before the first of month `m` (m = 13 gives the whole year). */
  function DaysBeforeMonth(y: int, m: int): nat
    requires 1 <= m <= 13
  {
    if m == 1 then 0 else DaysBeforeMonth(y, m - 1) + MonthLength(y, m - 1)
  }

  /** Days from the origin to the first of January of year `y`. */
  function DaysBeforeYear(y: int): nat
    requires y >= Epoch
    decreases y - Epoch
  {
    if y == Epoch then 0 else DaysBeforeYear(y - 1) + YearLength(y - 1)
  }

  /** Leap years strictly before year `y`, counted from year 1. */
  function LeapsBefore(y: int): int {
    (y - 1) / 4 - (y - 1) / 100 + (y - 1) / 400
  }

  lemma DivStep(z: int)
    ensures (z + 1) / 4 == z / 4 + (if (z + 1) % 4 == 0 then 1 else 0)
    ensures (z + 1) / 100 == z / 100 + (if (z + 1) % 100 == 0 then 1 else 0)
    ensures (z + 1) / 400 == z / 400 + (if (z + 1) % 400 == 0 then 1 else 0)
  {
  }

  lemma DivisorChain(z: int)
    ensures z % 100 == 0 ==> z % 4 == 0
    ensures z % 400 == 0 ==> z % 100 == 0
  {
    if z % 100 == 0 {
      var q := z / 100;
      assert z == 4 * (25 * q);
    }
    if z % 400 == 0 {
      var q := z / 400;
      assert z == 100 * (4 * q);
    }
  }

  /** Each year adds one to the leap count exactly when it is a leap year. */
  lemma LeapStep(z: int)
    ensures LeapsBefore(z + 1) == LeapsBefore(z) + (if IsLeap(z) then 1 else 0)
  {
    DivStep(z - 1);
    DivisorChain(z);
  }

  /** The closed form of DaysBeforeYear: 365 days a year plus one per leap year. */
  lemma {:induction false} DaysBeforeYearClosed(y: int)
    requires y >= Epoch
    ensures DaysBeforeYear(y) == 365 * (y - Epoch) + LeapsBefore(y) - LeapsBefore(Epoch)
    decreases y - Epoch
  {
    if y > Epoch {
      DaysBeforeYearClosed(y - 1);
      LeapStep(y - 1);
    }
  }

  datatype Date = Date(year: int, month: int, day: int)

  predicate ValidDate(d: Date) {
    d.year >= Epoch && 1 <= d.month <= 12 && 1 <= d.day <= MonthLength(d.year, d.month)
  }

  /** Days since the origin of a calendar date. */
  function DayNumber(d: Date): nat
    requires ValidDate(d)
  {
    DaysBeforeYear(d.year) + DaysBeforeMonth(d.year, d.month) + d.day - 1
  }

  /** Lexicographic order on dates. */
  predicate Before(a: Date, b: Date) {
    a.year < b.year
    || (a.year == b.year && a.month < b.month)
    || (a.year == b.year && a.month == b.month && a.day < b.day)
  }

  lemma {:induction false} YearIsTwelveMonths(y: int)
    ensures DaysBeforeMonth(y, 13) == YearLength(y)
  {
    var feb := MonthLength(y, 2);
    assert DaysBeforeMonth(y, 2) == 31;
    assert DaysBeforeMonth(y, 3) == 31 + feb;
    assert DaysBeforeMonth(y, 5) == 92 + feb;
    assert DaysBeforeMonth(y, 7) == 153 + feb;
    assert DaysBeforeMonth(y, 9) == 215 + feb;
    assert DaysBeforeMonth(y, 11) == 276 + feb;
  }

  lemma {:induction false} DaysBeforeMonthMonotone(y: int, m: int, k: int)
    requires 1 <= m <= k <= 13
    ensures DaysBeforeMonth(y, m) + (if m < k then MonthLength(y, m) else 0) <= DaysBeforeMonth(y, k)
    decreases k - m
  {
    if m < k {
      if m + 1 < k {
        DaysBeforeMonthMonotone(y, m + 1, k);
      }
    }
  }

  lemma {:induction false} DaysBeforeYearMonotone(y: int, z: int)
    requires Epoch <= y <= z
    ensures DaysBeforeYear(y) + (if y < z then YearLength(y) else 0) <= DaysBeforeYear(z)
    decreases z - y
  {
    if y < z && y + 1 < z {
      DaysBeforeYearMonotone(y + 1, z);
    }
  }

  /** A valid date lies strictly inside its year. */
  lemma DayOfYearBound(d: Date)
    requires ValidDate(d)
    ensures DaysBeforeYear(d.year) <= DayNumber(d) < DaysBeforeYear(d.year) + YearLength(d.year)
  {
    DaysBeforeMonthMonotone(d.year, d.month, 13);
    YearIsTwelveMonths(d.year);
  }

  /** DayNumber is strictly increasing in the calendar order. */
  lemma DayNumberMonotone(a: Date, b: Date)
    requires ValidDate(a) && ValidDate(b)
    ensures Before(a, b) ==> DayNumber(a) < DayNumber(b)
  {
    if a.year < b.year {
      DayOfYearBound(a);
      DaysBeforeYearMonotone(a.year, b.year);
    } else if a.year == b.year && a.month < b.month {
      DaysBeforeMonthMonotone(a.year, a.month, b.month);
    }
  }

  /** Two valid dates with the same day number are the same date. */
  lemma DayNumberInjective(a: Date, b: Date)
    requires ValidDate(a) && ValidDate(b) && DayNumber(a) == DayNumber(b)
    ensures a == b
  {
    DayNumberMonotone(a, b);
    DayNumberMonotone(b, a);
  }

  /** The date n days after the first of month m of year y (within that year). */
  function MonthFrom(y: int, m: int, n: nat): Date
    requires y >= Epoch && 1 <= m <= 12
    requires DaysBeforeMonth(y, m) + n < YearLength(y)
    decreases 12 - m
  {
    YearIsTwelveMonths(y);
    if n < MonthLength(y, m) then Date(y, m, n + 1)
    else if m == 12 then assert false; Date(y, m, 1)
    else MonthFrom(y, m + 1, n - MonthLength(y, m))
  }

  lemma {:induction false} MonthFromSpec(y: int, m: int, n: nat)
    requires y >= Epoch && 1 <= m <= 12
    requires DaysBeforeMonth(y, m) + n < YearLength(y)
    ensures var d := MonthFrom(y, m, n);
      ValidDate(d) && d.year == y && DaysBeforeMonth(y, d.month) + d.day - 1 == DaysBeforeMonth(y, m) + n
    decreases 12 - m
  {
    if n >= MonthLength(y, m) {
      YearIsTwelveMonths(y);
      assert m < 12;
      assert DaysBeforeMonth(y, m + 1) == DaysBeforeMonth(y, m) + MonthLength(y, m);
      MonthFromSpec(y, m + 1, n - MonthLength(y, m));
    }
  }

  /** The date n days after the first of January of year y. */
  function YearFrom(y: int, n: nat): Date
    requires y >= Epoch
    decreases n
  {
    if n < YearLength(y) then MonthFrom(y, 1, n) else YearFrom(y + 1, n - YearLength(y))
  }

  lemma {:induction false} YearFromSpec(y: int, n: nat)
    requires y >= Epoch
    ensures ValidDate(YearFrom(y, n)) && DayNumber(YearFrom(y, n)) == DaysBeforeYear(y) + n
    decreases n
  {
    if n < YearLength(y) {
      MonthFromSpec(y, 1, n);
    } else {
      YearFromSpec(y + 1, n - YearLength(y));
    }
  }

  /** The calendar date of a day number. */
  function CivilFromDays(n: nat): Date
  {
    YearFrom(Epoch, n)
  }

  /** CivilFromDays inverts DayNumber: it yields a valid date with that day number. */
  lemma CivilFromDaysSpec(n: nat)
    ensures ValidDate(CivilFromDays(n)) && DayNumber(CivilFromDays(n)) == n
  {
    YearFromSpec(Epoch, n);
  }

  /** The round trip the other way: every valid date is recovered from its day number. */
  lemma CivilFromDayNumber(d: Date)
    requires ValidDate(d)
    ensures CivilFromDays(DayNumber(d)) == d
  {
    CivilFromDaysSpec(DayNumber(d));
    DayNumberInjective(CivilFromDays(DayNumber(d)), d);
  }

  /** A day number that falls within year `y` is dated in year `y`. */
  lemma YearOfDay(n: nat, y: int)
    requires y >= Epoch && DaysBeforeYear(y) <= n < DaysBeforeYear(y) + YearLength(y)
    ensures CivilFromDays(n).year == y
  {
    var d := CivilFromDays(n);
    CivilFromDaysSpec(n);
    DayOfYearBound(d);
    if d.year < y {
      DaysBeforeYearMonotone(d.year, y);
    } else if d.year > y {
      DaysBeforeYearMonotone(y, d.year);
    }
  }

  /** Day of week of a day number, 0 = Sunday; 1970-01-01 was a Thursday. */
  function Weekday(n: nat): (w: nat)
    ensures w < 7
  {
    (n + 4) % 7
  }

  datatype DateTime = DateTime(date: Date, hour: int, minute: int)

  predicate ValidDateTime(c: DateTime) {
    ValidDate(c.date) && 0 <= c.hour < 24 && 0 <= c.minute < 60
  }

  /** The timestamp (minutes since the origin) of a civil date and time. */
  function Stamp(c: DateTime): nat
    requires ValidDateTime(c)
  {
    DayNumber(c.date) * MinutesPerDay + c.hour * MinutesPerHour + c.minute
  }

  /** The civil date and time of a timestamp. */
  function Civil(t: nat): DateTime
  {
    DateTime(CivilFromDays(t / MinutesPerDay), (t % MinutesPerDay) / MinutesPerHour, t % MinutesPerHour)
  }

  /** Civil is the inverse of Stamp: every timestamp is a valid date and time that stamps back to it. */
  lemma StampOfCivil(t: nat)
    ensures ValidDateTime(Civil(t)) && Stamp(Civil(t)) == t
  {
    CivilFromDaysSpec(t / MinutesPerDay);
  }

  lemma StampParts(n: nat, h: int, m: int)
    requires 0 <= h < 24 && 0 <= m < 60
    ensures (n * 1440 + h * 60 + m) / 1440 == n
    ensures ((n * 1440 + h * 60 + m) % 1440) / 60 == h
    ensures (n * 1440 + h * 60 + m) % 60 == m
  {
  }

  lemma CivilOfStamp(c: DateTime)
    requires ValidDateTime(c)
    ensures Civil(Stamp(c)) == c
  {
    StampParts(DayNumber(c.date), c.hour, c.minute);
    CivilFromDayNumber(c.date);
  }
}
