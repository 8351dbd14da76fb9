/** The three crontab scenarios of the schedule tests, proved for the model:
    every minute of an hour (thinned at three resolutions), every quarter hour
    of two chosen hours, and a dense pattern on the Fridays of March and May 2018. */
module ScheduleScenarios {
  import opened Wrappers
  import opened Text
  import opened Calendar
  import opened Cron
  import opened Scheduler

  const Every := CronSpec([All(1)], [All(1)], [All(1)], [All(1)], [All(1)])
  const Wider := CronSpec([All(15)], [Single(2), Single(10)], [All(1)], [All(1)], [All(1)])
  const Complex := CronSpec([Span(10, 15, 1), Span(25, 40, 3)], [Single(17)], [All(1)], [Single(3), Single(5)], [Single(5)])

  /** Midnight on the 13th of a month or on a Friday: both day fields restricted. */
  const ThirteenthOrFriday := CronSpec([Single(0)], [Single(0)], [Single(13)], [All(1)], [Single(5)])

  /** One hour, in minutes. */
  const HourWindow: nat := 60

  // ---------------------------------------------------------------- parsing the three texts

  lemma ParseEvery()
    ensures Parse("* * * * *") == Some(Every)
  {
    assert Format(Every) == "* * * * *";
    ParseFormat(Every);
  }

  /** Five fields joined by spaces. */
  lemma JoinFive(a: string, b: string, c: string, d: string, e: string)
    ensures Join([a, b, c, d, e], ' ') == a + " " + b + " " + c + " " + d + " " + e
  {
    assert [d, e][1..] == [e];
    assert Join([e], ' ') == e;
    var de := Join([d, e], ' ');
    assert de == d + " " + e;
    assert [c, d, e][1..] == [d, e];
    var cde := Join([c, d, e], ' ');
    assert cde == c + " " + de;
    assert [b, c, d, e][1..] == [c, d, e];
    var bcde := Join([b, c, d, e], ' ');
    assert bcde == b + " " + cde;
    assert [a, b, c, d, e][1..] == [b, c, d, e];
    assert Join([a, b, c, d, e], ' ') == a + " " + bcde;
  }

  lemma FormatWider()
    ensures Format(Wider) == "*/15 2,10 * * *"
  {
    var minute, hour, any := FormatField(Wider.minute), FormatField(Wider.hour), FormatField([All(1)]);
    assert minute == "*/15" by {
      assert ShowNat(15) == "15";
    }
    assert hour == "2,10" by {
      assert ShowNat(10) == "10";
      assert FormatItems(Wider.hour) == ["2", "10"];
    }
    assert any == "*";
    JoinFive(minute, hour, any, any, any);
  }

  lemma ParseWider()
    ensures Parse("*/15 2,10 * * *") == Some(Wider)
  {
    FormatWider();
    ParseFormat(Wider);
  }

  lemma FormatComplexMinute()
    ensures FormatField(Complex.minute) == "10-15,25-40/3"
  {
    var first, second := FormatItem(Span(10, 15, 1)), FormatItem(Span(25, 40, 3));
    assert first == "10-15" by {
      assert ShowNat(10) == "10" && ShowNat(15) == "15";
    }
    assert second == "25-40/3" by {
      assert ShowNat(25) == "25" && ShowNat(40) == "40";
      assert StepSuffix(3) == "/3";
    }
    assert FormatItems(Complex.minute) == [first, second];
    assert [first, second][1..] == [second];
  }

  lemma FormatComplex()
    ensures Format(Complex) == "10-15,25-40/3 17 * 3,5 5"
  {
    var minute, hour, day := FormatField(Complex.minute), FormatField(Complex.hour), FormatField(Complex.dayOfMonth);
    var month, weekday := FormatField(Complex.month), FormatField(Complex.dayOfWeek);
    FormatComplexMinute();
    assert hour == "17";
    assert day == "*";
    assert month == "3,5" by {
      assert FormatItems(Complex.month) == ["3", "5"];
    }
    assert weekday == "5";
    JoinFive(minute, hour, day, month, weekday);
  }

  lemma ParseComplex()
    ensures Parse("10-15,25-40/3 17 * 3,5 5") == Some(Complex)
  {
    FormatComplex();
    assert ValidField(Complex.minute, MinuteBounds);
    assert ValidField(Complex.month, MonthBounds);
    ParseFormat(Complex);
  }

  // ---------------------------------------------------------------- every minute

  /** The expression with every field unrestricted fires at every minute. */
  lemma EveryFires(t: nat)
    ensures Matches(Every, t)
  {
    StampOfCivil(t);
    var c := Civil(t);
    StarAllows(MinuteBounds, c.minute);
    StarAllows(HourBounds, c.hour);
    StarAllows(MonthBounds, c.date.month);
    StarAllows(DayOfMonthBounds, c.date.day);
    StarAllows(DayOfWeekBounds, Weekday(t / MinutesPerDay));
  }

  /** The n consecutive minutes starting at a. */
  function Range(a: nat, n: nat): (r: seq<nat>)
  {
    seq(n, i => a + i)
  }

  /** c minutes starting at a, k minutes apart. */
  function Steps(a: nat, c: nat, k: nat): (r: seq<nat>)
  {
    seq(c, i => a + i * k)
  }

  lemma {:induction false} MatchingEvery(a: nat, n: nat)
    ensures Matching(Every, a, a + n) == Range(a, n)
    decreases n
  {
    if n > 0 {
      MatchingEvery(a, n - 1);
      EveryStep(a, n - 1);
      RangeStep(a, n - 1);
    }
  }

  lemma EveryStep(a: nat, n: nat)
    ensures Matching(Every, a, a + n + 1) == Matching(Every, a, a + n) + [a + n]
  {
    MatchingStep(Every, a, a + n);
    EveryFires(a + n);
  }

  lemma RangeStep(a: nat, n: nat)
    ensures Range(a, n + 1) == Range(a, n) + [a + n]
  {
  }

  /** One more minute of a consecutive run: it is kept exactly when it is far
      enough from the last kept minute. */
  lemma RunExtend(a: nat, n: nat, c: nat, k: nat, last: nat, resolution: nat)
    requires c >= 1 && last == (c - 1) * k && n >= last
    requires Thin(Range(a, n), resolution) == Steps(a, c, k)
    ensures Thin(Range(a, n + 1), resolution)
      == if (n - last) * SecondsPerMinute >= resolution then Steps(a, c, k) + [a + n] else Steps(a, c, k)
  {
    assert Range(a, n + 1) == Range(a, n) + [a + n];
    ThinStep(Range(a, n), a + n, resolution);
    var kept := Steps(a, c, k);
    assert kept[c - 1] == a + last;
  }

  /** Within a gap of less than k minutes after the last kept minute, the next
      minute is dropped. */
  lemma RunDrops(a: nat, n: nat, q: nat, r: nat, k: nat, resolution: nat)
    requires 1 <= r < k && n == q * k + r
    requires (k - 1) * SecondsPerMinute < resolution
    requires Thin(Range(a, n), resolution) == Steps(a, q + 1, k)
    ensures Thin(Range(a, n + 1), resolution) == Steps(a, q + 1, k)
  {
    var last := q * k;
    assert (n - last) * SecondsPerMinute < resolution;
    RunExtend(a, n, q + 1, k, last, resolution);
  }

  /** After c kept minutes k apart, the minute k after the last one is kept too. */
  lemma RunKeeps(a: nat, n: nat, c: nat, k: nat, resolution: nat)
    requires c >= 1 && n == c * k && k * SecondsPerMinute >= resolution
    requires Thin(Range(a, n), resolution) == Steps(a, c, k)
    ensures Thin(Range(a, n + 1), resolution) == Steps(a, c + 1, k)
  {
    var last := (c - 1) * k;
    MulPred(c, k);
    RunExtend(a, n, c, k, last, resolution);
    StepsSnoc(a, c, k, n);
  }

  lemma MulPred(c: nat, k: nat)
    requires c >= 1
    ensures (c - 1) * k == c * k - k
  {
  }

  lemma StepsSnoc(a: nat, c: nat, k: nat, n: nat)
    requires n == c * k
    ensures Steps(a, c + 1, k) == Steps(a, c, k) + [a + n]
  {
    var longer := Steps(a, c + 1, k);
    var shorter := Steps(a, c, k);
    assert |longer| == |shorter + [a + n]|;
    forall i | 0 <= i < c + 1 ensures longer[i] == (shorter + [a + n])[i] {
      if i < c {
        assert longer[i] == a + i * k == shorter[i];
      }
    }
  }

  /** Thinning a run of consecutive minutes at a resolution of more than k - 1
      and at most k minutes keeps every k-th minute: a run of n = q * k + r
      minutes (0 < r <= k) keeps q + 1 of them. */
  lemma {:induction false} ThinRun(a: nat, n: nat, q: nat, r: nat, k: nat, resolution: nat)
    requires 1 <= r <= k && n == q * k + r
    requires (k - 1) * SecondsPerMinute < resolution <= k * SecondsPerMinute
    ensures Thin(Range(a, n), resolution) == Steps(a, q + 1, k)
    decreases q, r
  {
    if r > 1 {
      ThinRun(a, n - 1, q, r - 1, k, resolution);
      RunDrops(a, n - 1, q, r - 1, k, resolution);
    } else if q == 0 {
      assert Range(a, 1) == [a];
    } else {
      MulPred(q, k);
      ThinRun(a, n - 1, q - 1, k, k, resolution);
      RunKeeps(a, n - 1, q, k, resolution);
    }
  }

  lemma RangeIncreasing(a: nat, n: nat)
    ensures StrictlyIncreasing(Range(a, n))
  {
  }

  /** `* * * * *` over one hour at resolution 0: sixty occurrences, from the
      start to the last minute before the stop. */
  lemma EveryMinuteScenario(start: nat)
    ensures var s := Schedules(Every, start, start + HourWindow, 0);
      |s| == 60 && s[0] == start && s[|s| - 1] == start + HourWindow - 1
  {
    MatchingEvery(start, HourWindow);
    RangeIncreasing(start, HourWindow);
    ThinFine(Range(start, HourWindow), 0);
  }

  /** The same at a resolution of ten minutes: six occurrences, the last ten
      minutes before the stop. */
  lemma EveryTenMinutesScenario(start: nat)
    ensures var s := Schedules(Every, start, start + HourWindow, 10 * SecondsPerMinute);
      |s| == 6 && s[0] == start && s[|s| - 1] == start + HourWindow - 10
  {
    MatchingEvery(start, HourWindow);
    ThinRun(start, HourWindow, 5, 10, 10, 10 * SecondsPerMinute);
  }

  /** The same at a resolution of twelve minutes: five occurrences, the last
      twelve minutes before the stop. */
  lemma EveryTwelveMinutesScenario(start: nat)
    ensures var s := Schedules(Every, start, start + HourWindow, 12 * SecondsPerMinute);
      |s| == 5 && s[0] == start && s[|s| - 1] == start + HourWindow - 12
  {
    MatchingEvery(start, HourWindow);
    ThinRun(start, HourWindow, 4, 12, 12, 12 * SecondsPerMinute);
  }

  // ---------------------------------------------------------------- every quarter hour of two hours

  lemma TwoHoursAllow(h: int)
    ensures FieldAllows(Wider.hour, HourBounds, h) <==> h == 2 || h == 10
  {
    var rest: Field := [Single(10)];
    assert Wider.hour[1..] == rest;
    assert rest[1..] == [];
    assert FieldAllows(rest, HourBounds, h) <==> h == 10;
  }

  // Within day d, the quarter-hour expression of the hours 2 and 10 fires at
  // minute m of hour h exactly when h is 2 or 10 and m is a multiple of 15.
  lemma WiderFires(d: nat, h: nat, m: nat)
    requires h < 24 && m < 60
    ensures Matches(Wider, d * MinutesPerDay + h * MinutesPerHour + m) <==> (h == 2 || h == 10) && m % 15 == 0
  {
    var t := d * MinutesPerDay + h * MinutesPerHour + m;
    StampParts(d, h, m);
    var date := CivilFromDays(d);
    CivilFromDaysSpec(d);
    assert Civil(t) == DateTime(date, h, m);
    StarAllows(MonthBounds, date.month);
    StarAllows(DayOfMonthBounds, date.day);
    StarAllows(DayOfWeekBounds, Weekday(d));
    OnStepMod(m, 0, 59, 15);
    TwoHoursAllow(h);
    assert Wider.minute[1..] == [];
    assert FieldAllows(Wider.minute, MinuteBounds, m) <==> m % 15 == 0;
    assert DayAllowed(Wider, date.day, Weekday(t / MinutesPerDay));
    assert FieldAllows(Wider.month, MonthBounds, date.month);
  }

  /** The quarter hours of the hour starting at `start`, when that hour is 2 or 10. */
  function QuarterHours(start: nat, hour: nat): (r: seq<nat>)
  {
    if hour == 2 || hour == 10 then [start, start + 15, start + 30, start + 45] else []
  }

  lemma QuarterOfHour(m: nat)
    requires m < 60
    ensures m % 15 == 0 <==> m == 0 || m == 15 || m == 30 || m == 45
  {
  }

  lemma WiderWindow(d: nat, hour: nat, t: nat)
    requires hour < 24
    ensures var start := d * MinutesPerDay + hour * MinutesPerHour;
      (start <= t < start + HourWindow && Matches(Wider, t)) <==> t in QuarterHours(start, hour)
  {
    var start := d * MinutesPerDay + hour * MinutesPerHour;
    if start <= t < start + HourWindow {
      WiderFires(d, hour, t - start);
      QuarterOfHour(t - start);
    }
  }

  // The expression */15 2,10 * * * over the hour starting at `hour`
  // o'clock of any day: the four quarter hours when the hour is 2 or 10,
  // nothing otherwise.
  lemma WiderScenario(date: Date, hour: nat)
    requires ValidDate(date) && hour < 24
    ensures var start := Stamp(DateTime(date, hour, 0));
      Schedules(Wider, start, start + HourWindow, 0) == QuarterHours(start, hour)
  {
    var d := DayNumber(date);
    var start := Stamp(DateTime(date, hour, 0));
    assert start == d * MinutesPerDay + hour * MinutesPerHour;
    WiderFound(d, hour, start);
    IncreasingUnique(Matching(Wider, start, start + HourWindow), QuarterHours(start, hour));
    ThinFine(Matching(Wider, start, start + HourWindow), 0);
  }

  lemma WiderFound(d: nat, hour: nat, start: nat)
    requires hour < 24 && start == d * MinutesPerDay + hour * MinutesPerHour
    ensures var found := Matching(Wider, start, start + HourWindow);
      && StrictlyIncreasing(found)
      && forall t: nat :: t in found <==> t in QuarterHours(start, hour)
  {
    var found := Matching(Wider, start, start + HourWindow);
    MatchingSpec(Wider, start, start + HourWindow);
    forall t: nat ensures t in found <==> t in QuarterHours(start, hour) {
      WiderWindow(d, hour, t);
    }
  }

  // ---------------------------------------------------------------- Fridays of March and May 2018

  /** Day numbers of the Fridays of March and May 2018. */
  const Fridays: seq<nat> := [17592, 17599, 17606, 17613, 17620, 17655, 17662, 17669, 17676]

  /** The minutes of the hour selected by `10-15,25-40/3`, ascending. */
  const ChosenMinutes: seq<nat> := [10, 11, 12, 13, 14, 15, 25, 28, 31, 34, 37, 40]

  const FiveOClock: nat := 17

  /** The occurrences the pattern has in 2018: at 17:mm for each chosen minute
      mm of each Friday of March and May, in time order. */
  function Expected2018(): (r: seq<nat>)
  {
    seq(|Fridays| * |ChosenMinutes|, i requires 0 <= i < |Fridays| * |ChosenMinutes| =>
      Fridays[i / 12] * MinutesPerDay + FiveOClock * MinutesPerHour + ChosenMinutes[i % 12])
  }

  lemma MinuteFieldAllows(m: int)
    ensures FieldAllows(Complex.minute, MinuteBounds, m) <==> m in ChosenMinutes
  {
    var rest: Field := [Span(25, 40, 3)];
    assert Complex.minute[1..] == rest;
    assert rest[1..] == [];
    assert !FieldAllows(rest[1..], MinuteBounds, m);
    assert FieldAllows(rest, MinuteBounds, m) <==> OnStep(m, 25, 40, 3);
    assert FieldAllows(Complex.minute, MinuteBounds, m) <==> OnStep(m, 10, 15, 1) || OnStep(m, 25, 40, 3);
    OnStepMod(m, 10, 15, 1);
    OnStepMod(m, 25, 40, 3);
    assert m in ChosenMinutes <==> 10 <= m <= 15 || m == 25 || m == 28 || m == 31 || m == 34 || m == 37 || m == 40;
  }

  lemma OtherFieldsAllow(h: int, mo: int, w: int)
    ensures FieldAllows(Complex.hour, HourBounds, h) <==> h == FiveOClock
    ensures FieldAllows(Complex.month, MonthBounds, mo) <==> mo == 3 || mo == 5
    ensures FieldAllows(Complex.dayOfWeek, DayOfWeekBounds, w) <==> w == 5
  {
    var may: Field := [Single(5)];
    assert Complex.hour[1..] == [];
    assert Complex.month[1..] == may;
    assert may[1..] == [];
    assert !FieldAllows(may[1..], MonthBounds, mo);
    assert FieldAllows(may, MonthBounds, mo) <==> mo == 5;
    assert Complex.dayOfWeek[1..] == [];
  }

  /** Days of 2018 before the first of month m (ordinary year). */
  function Before2018(m: int): nat {
    if m <= 1 then 0 else if m == 2 then 31 else if m == 3 then 59 else if m == 4 then 90
    else if m == 5 then 120 else if m == 6 then 151 else if m == 7 then 181 else if m == 8 then 212
    else if m == 9 then 243 else if m == 10 then 273 else if m == 11 then 304 else 334
  }

  lemma Year2018Starts()
    ensures DaysBeforeYear(2018) == 17532 && !IsLeap(2018)
  {
    DaysBeforeYearClosed(2018);
  }

  lemma DayNumber2018(d: Date)
    requires ValidDate(d) && d.year == 2018
    ensures DayNumber(d) == 17532 + Before2018(d.month) + d.day - 1
  {
    Year2018Starts();
    var m := d.month;
    assert DaysBeforeMonth(2018, m) == Before2018(m) by {
      if m == 1 {} else if m == 2 {} else if m == 3 {} else if m == 4 {}
      else if m == 5 {} else if m == 6 {} else if m == 7 {} else if m == 8 {}
      else if m == 9 {} else if m == 10 {} else if m == 11 {} else {}
    }
  }

  lemma MarchFridays(day: int)
    requires 1 <= day <= 31
    ensures Weekday(17590 + day) == 5 <==> 17590 + day in Fridays
  {
  }

  lemma MayFridays(day: int)
    requires 1 <= day <= 31
    ensures Weekday(17651 + day) == 5 <==> 17651 + day in Fridays
  {
  }

  lemma OutsideFridays(n: int)
    requires n < 17591 || 17621 < n < 17652 || 17682 < n
    ensures n !in Fridays
  {
  }

  /** A day of 2018 falls on a Friday of March or May exactly when it is one of `Fridays`. */
  lemma FridayOfMarchOrMay(n: nat)
    requires 17532 <= n < 17897
    ensures var d := CivilFromDays(n);
      ((d.month == 3 || d.month == 5) && Weekday(n) == 5) <==> n in Fridays
  {
    var d := CivilFromDays(n);
    CivilFromDaysSpec(n);
    Year2018Starts();
    YearOfDay(n, 2018);
    DayNumber2018(d);
    if d.month == 3 {
      MarchFridays(d.day);
    } else if d.month == 5 {
      MayFridays(d.day);
    } else {
      OutsideFridays(n);
    }
  }

  /** Within 2018 the pattern fires exactly at 17:mm of a Friday of March or
      May, for a chosen minute mm. */
  lemma ComplexFires(t: nat)
    requires 17532 * MinutesPerDay <= t < 17897 * MinutesPerDay
    ensures Matches(Complex, t) <==>
      t / MinutesPerDay in Fridays && (t % MinutesPerDay) / MinutesPerHour == FiveOClock && t % MinutesPerHour in ChosenMinutes
  {
    var n := t / MinutesPerDay;
    var c := Civil(t);
    CivilFromDaysSpec(n);
    MinuteFieldAllows(c.minute);
    OtherFieldsAllow(c.hour, c.date.month, Weekday(n));
    StarAllows(DayOfMonthBounds, c.date.day);
    FridayOfMarchOrMay(n);
  }

  lemma ExpectedMember(t: nat)
    ensures t in Expected2018() <==>
      t / MinutesPerDay in Fridays && (t % MinutesPerDay) / MinutesPerHour == FiveOClock && t % MinutesPerHour in ChosenMinutes
  {
    if t in Expected2018() {
      ExpectedOnly(t);
    }
    if t / MinutesPerDay in Fridays && (t % MinutesPerDay) / MinutesPerHour == FiveOClock && t % MinutesPerHour in ChosenMinutes {
      ExpectedAll(t);
    }
  }

  lemma ExpectedOnly(t: nat)
    requires t in Expected2018()
    ensures t / MinutesPerDay in Fridays && (t % MinutesPerDay) / MinutesPerHour == FiveOClock && t % MinutesPerHour in ChosenMinutes
  {
    var e := Expected2018();
    var i :| 0 <= i < |e| && e[i] == t;
    StampParts(Fridays[i / 12], FiveOClock, ChosenMinutes[i % 12]);
  }

  lemma ExpectedAll(t: nat)
    requires t / MinutesPerDay in Fridays && (t % MinutesPerDay) / MinutesPerHour == FiveOClock && t % MinutesPerHour in ChosenMinutes
    ensures t in Expected2018()
  {
    var e := Expected2018();
    var n := t / MinutesPerDay;
    var m := t % MinutesPerHour;
    var k :| 0 <= k < |Fridays| && Fridays[k] == n;
    var j :| 0 <= j < |ChosenMinutes| && ChosenMinutes[j] == m;
    StampOfCivil(t);
    CivilFromDaysSpec(n);
    assert t == n * MinutesPerDay + FiveOClock * MinutesPerHour + m;
    var i := 12 * k + j;
    assert i / 12 == k && i % 12 == j;
    assert e[i] == t;
  }

  lemma FridaysAscend(x: int, y: int)
    requires 0 <= x < y < |Fridays|
    ensures Fridays[x] < Fridays[y]
  {
  }

  lemma MinutesAscend(x: int, y: int)
    requires 0 <= x < y < |ChosenMinutes|
    ensures ChosenMinutes[x] < ChosenMinutes[y]
  {
  }

  lemma ExpectedIncreasing()
    ensures StrictlyIncreasing(Expected2018())
  {
    var e := Expected2018();
    forall i, j | 0 <= i < j < |e| ensures e[i] < e[j] {
      if i / 12 == j / 12 {
        MinutesAscend(i % 12, j % 12);
      } else {
        FridaysAscend(i / 12, j / 12);
        assert ChosenMinutes[i % 12] <= 40 && ChosenMinutes[j % 12] >= 10;
      }
    }
  }

  lemma ComplexMatching(start: nat, stop: nat)
    requires start == 17532 * MinutesPerDay && stop == 17896 * MinutesPerDay
    ensures Matching(Complex, start, stop) == Expected2018()
  {
    var found := Matching(Complex, start, stop);
    var e := Expected2018();
    MatchingSpec(Complex, start, stop);
    forall t: nat ensures t in found <==> t in e {
      ExpectedMember(t);
      if start <= t < stop {
        ComplexFires(t);
      }
    }
    ExpectedIncreasing();
    IncreasingUnique(found, e);
  }

  lemma ComplexSchedules(start: nat, stop: nat)
    requires start == 17532 * MinutesPerDay && stop == 17896 * MinutesPerDay
    ensures Schedules(Complex, start, stop, SecondsPerMinute) == Expected2018()
  {
    MatchingSpec(Complex, start, stop);
    ThinFine(Matching(Complex, start, stop), SecondsPerMinute);
    ComplexMatching(start, stop);
  }

  lemma DatesOf2018()
    ensures DayNumber(Date(2018, 1, 1)) == 17532
    ensures DayNumber(Date(2018, 12, 31)) == 17896
    ensures DayNumber(Date(2018, 3, 2)) == 17592
    ensures DayNumber(Date(2018, 3, 30)) == 17620
    ensures DayNumber(Date(2018, 5, 4)) == 17655
    ensures DayNumber(Date(2018, 5, 25)) == 17676
  {
    Year2018Starts();
  }

  lemma ExpectedPicks()
    ensures |Expected2018()| == 108
    ensures Expected2018()[0] == 17592 * MinutesPerDay + 17 * MinutesPerHour + 10
    ensures Expected2018()[59] == 17620 * MinutesPerDay + 17 * MinutesPerHour + 40
    ensures Expected2018()[60] == 17655 * MinutesPerDay + 17 * MinutesPerHour + 10
    ensures Expected2018()[107] == 17676 * MinutesPerDay + 17 * MinutesPerHour + 40
  {
  }

  /** `10-15,25-40/3 17 * 3,5 5` from 2018-01-01 00:00 to 2018-12-31 00:00 at a
      resolution of one minute: 108 occurrences, the first on 2 March at 17:10,
      the 60th on 30 March at 17:40, the 61st on 4 May at 17:10 and the last on
      25 May at 17:40. */
  lemma ComplexScenario(start: nat, stop: nat)
    requires start == Stamp(DateTime(Date(2018, 1, 1), 0, 0))
    requires stop == Stamp(DateTime(Date(2018, 12, 31), 0, 0))
    ensures var s := Schedules(Complex, start, stop, SecondsPerMinute);
      && |s| == 108
      && Civil(s[0]) == DateTime(Date(2018, 3, 2), 17, 10)
      && Civil(s[59]) == DateTime(Date(2018, 3, 30), 17, 40)
      && Civil(s[60]) == DateTime(Date(2018, 5, 4), 17, 10)
      && Civil(s[107]) == DateTime(Date(2018, 5, 25), 17, 40)
  {
    DatesOf2018();
    ComplexSchedules(start, stop);
    ExpectedPicks();
    CivilOfStamp(DateTime(Date(2018, 3, 2), 17, 10));
    CivilOfStamp(DateTime(Date(2018, 3, 30), 17, 40));
    CivilOfStamp(DateTime(Date(2018, 5, 4), 17, 10));
    CivilOfStamp(DateTime(Date(2018, 5, 25), 17, 40));
  }

  // ---------------------------------------------------------------- two restricted day fields

  lemma SingleAllows(v: nat, b: Bounds, x: int)
    ensures FieldAllows([Single(v)], b, x) <==> x == v
  {
    assert [Single(v)][1..] == [];
  }

  /** `0 0 13 * 5` fires at midnight of every valid date that is a 13th or a
      Friday, and at no other minute of a day. */
  lemma ThirteenthOrFridayFires(date: Date, hour: nat, minute: nat)
    requires ValidDate(date) && hour < 24 && minute < 60
    ensures Matches(ThirteenthOrFriday, Stamp(DateTime(date, hour, minute)))
      <==> hour == 0 && minute == 0 && (date.day == 13 || Weekday(DayNumber(date)) == 5)
  {
    var n := DayNumber(date);
    var t := Stamp(DateTime(date, hour, minute));
    CivilOfStamp(DateTime(date, hour, minute));
    assert t / MinutesPerDay == n by {
      StampParts(n, hour, minute);
    }
    SingleAllows(0, MinuteBounds, minute);
    SingleAllows(0, HourBounds, hour);
    SingleAllows(13, DayOfMonthBounds, date.day);
    SingleAllows(5, DayOfWeekBounds, Weekday(n));
    StarAllows(MonthBounds, date.month);
    DayRule(ThirteenthOrFriday, date.day, Weekday(n));
  }

  /** Friday 2018-03-02 is not a 13th, and fires. */
  lemma FridayFires()
    ensures Matches(ThirteenthOrFriday, Stamp(DateTime(Date(2018, 3, 2), 0, 0)))
  {
    DayNumber2018(Date(2018, 3, 2));
    ThirteenthOrFridayFires(Date(2018, 3, 2), 0, 0);
  }

  /** Tuesday 2018-02-13 is not a Friday, and fires. */
  lemma ThirteenthFires()
    ensures Matches(ThirteenthOrFriday, Stamp(DateTime(Date(2018, 2, 13), 0, 0)))
  {
    DayNumber2018(Date(2018, 2, 13));
    ThirteenthOrFridayFires(Date(2018, 2, 13), 0, 0);
  }

  /** Thursday 2018-03-01 is neither, and does not fire. */
  lemma ThursdayFirstSilent()
    ensures !Matches(ThirteenthOrFriday, Stamp(DateTime(Date(2018, 3, 1), 0, 0)))
  {
    DayNumber2018(Date(2018, 3, 1));
    ThirteenthOrFridayFires(Date(2018, 3, 1), 0, 0);
  }
}
