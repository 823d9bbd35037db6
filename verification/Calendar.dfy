/** The proleptic Gregorian calendar in UTC, as section 21.4.1 of ECMA-262 defines it for
    `Date`: day number, year, month, date and week day of a time value, and the overflow
    behaviour of the setters that the cron engine relies on. Time values are unbounded. */
module Calendar {

  function Day(t: int): int { t / 86_400_000 }

  function TimeWithinDay(t: int): int { t % 86_400_000 }

  function Hour(t: int): int { TimeWithinDay(t) / 3_600_000 }

  function Minute(t: int): int { TimeWithinDay(t) % 3_600_000 / 60_000 }

  /** A time value on a whole minute. */
  predicate WholeMinute(t: int) { t % 60_000 == 0 }

  predicate IsLeap(y: int) { y % 4 == 0 && (y % 100 != 0 || y % 400 == 0) }

  function DaysInYear(y: int): int { if IsLeap(y) then 366 else 365 }

  function DayFromYear(y: int): int
  {
    365 * (y - 1970) + (y - 1969) / 4 - (y - 1901) / 100 + (y - 1601) / 400
  }

  /** Days of the year before month `m`; month 12 is the following January. */
  function DaysBeforeMonth(leap: bool, m: int): int
    requires 0 <= m <= 12
  {
    var l := if leap then 1 else 0;
    if m == 0 then 0 else if m == 1 then 31 else if m == 2 then 59 + l
    else if m == 3 then 90 + l else if m == 4 then 120 + l else if m == 5 then 151 + l
    else if m == 6 then 181 + l else if m == 7 then 212 + l else if m == 8 then 243 + l
    else if m == 9 then 273 + l else if m == 10 then 304 + l else if m == 11 then 334 + l
    else 365 + l
  }

  /** The first day of month `m` of year `y`. */
  function MonthStart(y: int, m: int): int
    requires 0 <= m <= 12
  {
    DayFromYear(y) + DaysBeforeMonth(IsLeap(y), m)
  }

  lemma Every4(y: int)
    ensures (y - 1968) / 4 - (y - 1969) / 4 == if y % 4 == 0 then 1 else 0
  {}

  lemma Every100(y: int)
    ensures (y - 1900) / 100 - (y - 1901) / 100 == if y % 100 == 0 then 1 else 0
  {}

  lemma Every400(y: int)
    ensures (y - 1600) / 400 - (y - 1601) / 400 == if y % 400 == 0 then 1 else 0
    ensures y % 400 == 0 ==> y % 100 == 0
    ensures y % 100 == 0 ==> y % 4 == 0
  {}

  lemma YearLength(y: int)
    ensures DayFromYear(y + 1) == DayFromYear(y) + DaysInYear(y)
  {
    Every4(y);
    Every100(y);
    Every400(y);
  }

  lemma {:induction false} YearsIncrease(a: int, b: int)
    requires a <= b
    ensures DayFromYear(b) >= DayFromYear(a) + 365 * (b - a)
    decreases b - a
  {
    if a < b {
      YearsIncrease(a, b - 1);
      YearLength(b - 1);
    }
  }

  /** The year a day falls in: the largest year that starts no later than the day. */
  function YearFromDay(d: int): (y: int)
    ensures DayFromYear(y) <= d < DayFromYear(y + 1)
  {
    if DayFromYear(1970) <= d then YearUpward(d, 1970) else YearDownward(d, 1969)
  }

  function YearUpward(d: int, y: int): (r: int)
    requires DayFromYear(y) <= d
    ensures DayFromYear(r) <= d < DayFromYear(r + 1)
    decreases d - DayFromYear(y)
  {
    YearLength(y);
    if d < DayFromYear(y + 1) then y else YearUpward(d, y + 1)
  }

  function YearDownward(d: int, y: int): (r: int)
    requires d < DayFromYear(y + 1)
    ensures DayFromYear(r) <= d < DayFromYear(r + 1)
    decreases DayFromYear(y + 1) - d
  {
    YearLength(y);
    if DayFromYear(y) <= d then y else YearDownward(d, y - 1)
  }

  /** Exactly one year contains a day. */
  lemma YearIsUnique(d: int, y: int)
    requires DayFromYear(y) <= d < DayFromYear(y + 1)
    ensures YearFromDay(d) == y
  {
    var r := YearFromDay(d);
    if r < y {
      YearsIncrease(r + 1, y);
    } else if y < r {
      YearsIncrease(y + 1, r);
    }
  }

  lemma YearSpans(y: int)
    ensures MonthStart(y, 0) == DayFromYear(y) && MonthStart(y, 12) == DayFromYear(y + 1)
  {
    YearLength(y);
  }

  /** Month (0-11) of a day. */
  function MonthFromDay(d: int): (m: int)
    ensures 0 <= m <= 11
    ensures MonthStart(YearFromDay(d), m) <= d < MonthStart(YearFromDay(d), m + 1)
  {
    var y := YearFromDay(d);
    YearSpans(y);
    MonthUpward(y, d, 0)
  }

  function MonthUpward(y: int, d: int, m: int): (r: int)
    requires 0 <= m <= 11
    requires MonthStart(y, m) <= d < MonthStart(y, 12)
    ensures m <= r <= 11
    ensures MonthStart(y, r) <= d < MonthStart(y, r + 1)
    decreases 11 - m
  {
    if d < MonthStart(y, m + 1) then m else MonthUpward(y, d, m + 1)
  }

  /** Day of the month, from 1. */
  function DateFromDay(d: int): int
  {
    d - MonthStart(YearFromDay(d), MonthFromDay(d)) + 1
  }

  function WeekDayFromDay(d: int): int { (d + 4) % 7 }

  lemma MonthsIncrease(leap: bool, a: int, b: int)
    requires 0 <= a <= b <= 12
    ensures DaysBeforeMonth(leap, a) + 28 * (b - a) <= DaysBeforeMonth(leap, b)
    decreases b - a
  {
    if a < b {
      MonthsIncrease(leap, a + 1, b);
      assert DaysBeforeMonth(leap, a) + 28 <= DaysBeforeMonth(leap, a + 1);
    }
  }

  /** Exactly one month contains a day. */
  lemma MonthIsUnique(d: int, y: int, m: int)
    requires 0 <= m <= 11
    requires MonthStart(y, m) <= d < MonthStart(y, m + 1)
    ensures YearFromDay(d) == y && MonthFromDay(d) == m
  {
    YearLength(y);
    MonthsIncrease(IsLeap(y), 0, m);
    MonthsIncrease(IsLeap(y), m + 1, 12);
    YearIsUnique(d, y);
    var r := MonthFromDay(d);
    if r < m {
      MonthsIncrease(IsLeap(y), r + 1, m);
    } else if m < r {
      MonthsIncrease(IsLeap(y), m + 1, r);
    }
  }

  /** Day number of a year, a month that may lie outside 0-11, and a date that may lie
      outside the month (`MakeDay`). */
  function MakeDay(y: int, m: int, date: int): int
  {
    MonthStart(y + m / 12, m % 12) + date - 1
  }

  /** `MakeDay` meets the defining condition of the standard: the first of the overflowed
      month lies in that year and month and has date 1, and dates count on from it. */
  lemma MakeDayMeetsStandard(y: int, m: int, date: int)
    ensures var first := MakeDay(y, m, 1);
            YearFromDay(first) == y + m / 12 && MonthFromDay(first) == m % 12 && DateFromDay(first) == 1
            && MakeDay(y, m, date) == first + date - 1
  {
    hide MonthStart, DayFromYear, YearFromDay, MonthFromDay;
    var year, month := y + m / 12, m % 12;
    MonthIsNotEmpty(year, month);
    MonthIsUnique(MonthStart(year, month), year, month);
  }

  lemma MonthIsNotEmpty(y: int, m: int)
    requires 0 <= m <= 11
    ensures MonthStart(y, m) + 28 <= MonthStart(y, m + 1)
  {
    hide DayFromYear;
    MonthsIncrease(IsLeap(y), m, m + 1);
  }

  // Months as a line of consecutive intervals ----------------------------------------------------

  /** Months since year 0. */
  function MonthNumber(d: int): int { 12 * YearFromDay(d) + MonthFromDay(d) }

  function MonthFirst(d: int): int { MonthStart(YearFromDay(d), MonthFromDay(d)) }

  function NextMonthFirst(d: int): int { MonthStart(YearFromDay(d), MonthFromDay(d) + 1) }

  /** The first day of the month with number `n`. */
  function NumberStart(n: int): int { MonthStart(n / 12, n % 12) }

  lemma NumberSplits(y: int, m: int)
    requires 0 <= m <= 11
    ensures (12 * y + m) / 12 == y && (12 * y + m) % 12 == m
  {}

  lemma NumberSteps(n: int)
    ensures NumberStart(n) + 28 <= NumberStart(n + 1)
    ensures NumberStart(n + 1) == MonthStart(n / 12, n % 12 + 1)
  {
    hide MonthStart;
    var y, m := n / 12, n % 12;
    MonthIsNotEmpty(y, m);
    if m == 11 {
      YearSpans(y);
      YearSpans(y + 1);
      NumberSplits(y + 1, 0);
    } else {
      NumberSplits(y, m + 1);
    }
  }

  lemma {:induction false} NumbersApart(i: int, j: int)
    requires i <= j
    ensures NumberStart(i) + 28 * (j - i) <= NumberStart(j)
    decreases j - i
  {
    hide NumberStart;
    if i < j {
      NumberSteps(j - 1);
      NumbersApart(i, j - 1);
    }
  }

  /** A day's month, as an interval of the line. */
  lemma MonthInterval(d: int)
    ensures MonthFirst(d) == NumberStart(MonthNumber(d)) <= d < NextMonthFirst(d) == NumberStart(MonthNumber(d) + 1)
  {
    hide MonthStart, DayFromYear, YearFromDay;
    NumberSplits(YearFromDay(d), MonthFromDay(d));
    NumberSteps(MonthNumber(d));
  }

  lemma NumberTellsMonth(d: int)
    ensures MonthFromDay(d) == MonthNumber(d) % 12
  {
    hide MonthStart, DayFromYear, YearFromDay;
    NumberSplits(YearFromDay(d), MonthFromDay(d));
  }

  lemma NumberIsUnique(d: int, n: int)
    requires NumberStart(n) <= d < NumberStart(n + 1)
    ensures MonthNumber(d) == n
  {
    hide NumberStart, MonthFirst, NextMonthFirst, MonthNumber;
    MonthInterval(d);
    var r := MonthNumber(d);
    if r < n {
      NumbersApart(r + 1, n);
    } else if n < r {
      NumbersApart(n + 1, r);
    }
  }

  /** All days from one up to the next first of the month share its month. */
  lemma SameMonth(d: int, e: int)
    requires MonthFirst(d) <= e < NextMonthFirst(d)
    ensures MonthFromDay(e) == MonthFromDay(d) && MonthNumber(e) == MonthNumber(d)
  {
    hide NumberStart, MonthFirst, NextMonthFirst, MonthNumber, MonthFromDay, YearFromDay;
    MonthInterval(d);
    NumberIsUnique(e, MonthNumber(d));
    NumberTellsMonth(d);
    NumberTellsMonth(e);
  }

  /** The next first of the month is one month on. */
  lemma MonthAdvances(d: int)
    ensures d < NextMonthFirst(d) && MonthNumber(NextMonthFirst(d)) == MonthNumber(d) + 1
  {
    hide NumberStart, MonthFirst, NextMonthFirst, MonthNumber, MonthFromDay, YearFromDay;
    MonthInterval(d);
    NumberSteps(MonthNumber(d) + 1);
    NumberIsUnique(NextMonthFirst(d), MonthNumber(d) + 1);
  }

  /** Months never run backwards, and none is shorter than 28 days. */
  lemma MonthsGrow(d: int, e: int)
    requires d <= e
    ensures MonthNumber(d) <= MonthNumber(e)
    ensures 28 * (MonthNumber(e) - MonthNumber(d) - 1) <= e - d
  {
    hide NumberStart, MonthFirst, NextMonthFirst, MonthNumber, MonthFromDay, YearFromDay;
    MonthInterval(d);
    MonthInterval(e);
    var i, j := MonthNumber(d), MonthNumber(e);
    if j < i {
      NumbersApart(j + 1, i);
    } else if i < j {
      NumbersApart(i + 1, j);
    }
  }

  // Landing places of the setters ------------------------------------------------------------------

  /** Any date counted in a day's own month is counted from that month's first day. */
  lemma DateCounts(d: int, date: int)
    ensures MakeDay(YearFromDay(d), MonthFromDay(d), date) == MonthFirst(d) + date - 1
    ensures MonthFirst(d) + DateFromDay(d) - 1 == d
  {
    var m := MonthFromDay(d);
    assert m / 12 == 0 && m % 12 == m;
  }

  /** One month past the first of a day's month is the next first. */
  lemma MonthOverflow(d: int)
    ensures var first := MonthFirst(d);
            MakeDay(YearFromDay(first), MonthFromDay(first) + 1, DateFromDay(first)) == NextMonthFirst(d)
  {
    hide MonthStart, DayFromYear, YearFromDay, DateFromDay;
    var y, m := YearFromDay(d), MonthFromDay(d);
    assert m / 12 == 0 && m % 12 == m;
    MakeDayMeetsStandard(y, m, 1);
    if m == 11 {
      YearSpans(y);
      YearSpans(y + 1);
    }
  }

  // Anchors: what fixes the calendar to the real one ---------------------------------------------------

  /** Day 0 is Thursday, 1 January 1970, and week days follow one another in turn; 0 is Sunday. */
  lemma WeekDaysCycle(d: int)
    ensures WeekDayFromDay(0) == 4
    ensures 0 <= WeekDayFromDay(d) <= 6
    ensures WeekDayFromDay(d + 1) == if WeekDayFromDay(d) == 6 then 0 else WeekDayFromDay(d) + 1
  {}

  lemma EpochIsDayZero()
    ensures DayFromYear(1970) == 0 && MonthStart(1970, 0) == 0
    ensures YearFromDay(0) == 1970 && MonthFromDay(0) == 0 && DateFromDay(0) == 1
  {
    assert DayFromYear(1970) == 0;
    YearLength(1970);
    YearIsUnique(0, 1970);
    MonthIsUnique(0, 1970, 0);
  }

  /** Thirty days have April, June, September and November; February has 28, and 29 in years divisible
      by four but not by a hundred, or by four hundred; the rest have 31. */
  lemma MonthLengths(y: int, m: int)
    requires 0 <= m <= 11
    ensures MonthStart(y, m + 1) - MonthStart(y, m) ==
              if m == 3 || m == 5 || m == 8 || m == 10 then 30
              else if m == 1 then (if (y % 4 == 0 && y % 100 != 0) || y % 400 == 0 then 29 else 28)
              else 31
    ensures MonthStart(y, 12) == MonthStart(y + 1, 0)
  {
    Every400(y);
    YearSpans(y);
    YearSpans(y + 1);
  }

  /** A day and a time within it make a time value with exactly these parts. */
  lemma PartsOf(d: int, tod: int)
    requires 0 <= tod < 86_400_000
    ensures Day(d * 86_400_000 + tod) == d && TimeWithinDay(d * 86_400_000 + tod) == tod
  {}

  lemma SetDay(t: int, d: int)
    ensures var u := d * 86_400_000 + TimeWithinDay(t); Day(u) == d && Hour(u) == Hour(t) && Minute(u) == Minute(t)
  {
    PartsOf(d, TimeWithinDay(t));
  }

  lemma SplitHour(h: int, past: int)
    requires 0 <= past < 3_600_000
    ensures (h * 3_600_000 + past) / 3_600_000 == h && (h * 3_600_000 + past) % 3_600_000 == past
  {}

  lemma SplitMinute(min: int, rest: int)
    requires 0 <= rest < 60_000
    ensures (min * 60_000 + rest) / 60_000 == min && (min * 60_000 + rest) % 60_000 == rest
  {}

  /** The clock fields of a time of day. */
  lemma ClockOf(d: int, h: int, min: int, rest: int)
    requires 0 <= h <= 23 && 0 <= min <= 59 && 0 <= rest < 60_000
    ensures var t := d * 86_400_000 + h * 3_600_000 + min * 60_000 + rest;
            Day(t) == d && Hour(t) == h && Minute(t) == min && t % 60_000 == rest
  {
    var past := min * 60_000 + rest;
    SplitMinute(min, rest);
    SplitHour(h, past);
    SplitMinute(d * 1440 + h * 60 + min, rest);
    ClockFrom(d, h, min, past);
  }

  lemma ClockFrom(d: int, h: int, min: int, past: int)
    requires 0 <= h <= 23 && 0 <= past < 3_600_000 && past / 60_000 == min
    requires (h * 3_600_000 + past) / 3_600_000 == h && (h * 3_600_000 + past) % 3_600_000 == past
    ensures var t := d * 86_400_000 + (h * 3_600_000 + past); Day(t) == d && Hour(t) == h && Minute(t) == min
  {
    hide Day, TimeWithinDay;
    PartsOf(d, h * 3_600_000 + past);
  }

  lemma ClockBounds(t: int)
    ensures 0 <= Hour(t) <= 23 && 0 <= Minute(t) <= 59
    ensures t == Day(t) * 86_400_000 + Hour(t) * 3_600_000 + Minute(t) * 60_000 + t % 60_000
    ensures TimeWithinDay(t) == Hour(t) * 3_600_000 + Minute(t) * 60_000 + t % 60_000
    ensures t % 3_600_000 == Minute(t) * 60_000 + t % 60_000
  {
    var tod := TimeWithinDay(t);
    var past := tod % 3_600_000;
    var rest := past % 60_000;
    assert t == Day(t) * 86_400_000 + tod;
    assert tod == Hour(t) * 3_600_000 + past;
    assert past == Minute(t) * 60_000 + rest;
    SplitMinute(Day(t) * 1440 + Hour(t) * 60 + Minute(t), rest);
    SplitHour(Day(t) * 24 + Hour(t), past);
  }

  /** A month holds a date when counting on from its first day stays inside it. */
  predicate MonthHolds(y: int, m: int, date: int)
    requires 0 <= m <= 11
  {
    1 <= date && MonthStart(y, m) + date - 1 < MonthStart(y, m + 1)
  }

  /** Dates that exist in a month: `MakeDay` gives a day with exactly these fields. */
  lemma FieldsOf(y: int, m: int, date: int)
    requires 0 <= m <= 11 && MonthHolds(y, m, date)
    ensures var d := MakeDay(y, m, date); YearFromDay(d) == y && MonthFromDay(d) == m && DateFromDay(d) == date
  {
    hide MonthStart, YearFromDay, MonthFromDay;
    assert m / 12 == 0 && m % 12 == m;
    MonthIsUnique(MakeDay(y, m, date), y, m);
  }

  /** A `Date` object: one mutable time value, read and set through UTC calendar fields. Setters
      with optional arguments appear once per arity used. An argument in range is what the getter
      then returns, and the fields a setter does not name keep their values. */
  class UtcDate {
    var time: int

    constructor (t: int)
      ensures time == t
    {
      time := t;
    }

    function GetUTCFullYear(): int reads this { YearFromDay(Day(time)) }
    function GetUTCMonth(): int reads this { MonthFromDay(Day(time)) }
    function GetUTCDate(): int reads this { DateFromDay(Day(time)) }
    function GetUTCDay(): int reads this { WeekDayFromDay(Day(time)) }
    function GetUTCHours(): int reads this { Hour(time) }
    function GetUTCMinutes(): int reads this { Minute(time) }

    method SetUTCMonth(m: int)
      modifies this
      ensures var d := Day(old(time));
              time == MakeDay(YearFromDay(d), m, DateFromDay(d)) * 86_400_000 + TimeWithinDay(old(time))
      ensures 0 <= m <= 11 && MonthHolds(old(GetUTCFullYear()), m, old(GetUTCDate())) ==>
                GetUTCFullYear() == old(GetUTCFullYear()) && GetUTCMonth() == m && GetUTCDate() == old(GetUTCDate())
      ensures GetUTCHours() == old(GetUTCHours()) && GetUTCMinutes() == old(GetUTCMinutes())
    {
      hide MakeDay, YearFromDay, MonthFromDay, DateFromDay, MonthHolds, Day, TimeWithinDay, Hour, Minute;
      var d := Day(time);
      var next := MakeDay(YearFromDay(d), m, DateFromDay(d));
      if 0 <= m <= 11 && MonthHolds(YearFromDay(d), m, DateFromDay(d)) {
        FieldsOf(YearFromDay(d), m, DateFromDay(d));
      }
      SetDay(time, next);
      time := next * 86_400_000 + TimeWithinDay(time);
    }

    method SetUTCDate(date: int)
      modifies this
      ensures var d := Day(old(time));
              time == MakeDay(YearFromDay(d), MonthFromDay(d), date) * 86_400_000 + TimeWithinDay(old(time))
      ensures MonthHolds(old(GetUTCFullYear()), old(GetUTCMonth()), date) ==>
                GetUTCFullYear() == old(GetUTCFullYear()) && GetUTCMonth() == old(GetUTCMonth()) && GetUTCDate() == date
      ensures GetUTCHours() == old(GetUTCHours()) && GetUTCMinutes() == old(GetUTCMinutes())
    {
      hide MakeDay, YearFromDay, MonthFromDay, DateFromDay, MonthHolds, Day, TimeWithinDay, Hour, Minute;
      var d := Day(time);
      var next := MakeDay(YearFromDay(d), MonthFromDay(d), date);
      if MonthHolds(YearFromDay(d), MonthFromDay(d), date) {
        FieldsOf(YearFromDay(d), MonthFromDay(d), date);
      }
      SetDay(time, next);
      time := next * 86_400_000 + TimeWithinDay(time);
    }

    method SetUTCHours(h: int, min: int, s: int, ms: int)
      modifies this
      ensures time == Day(old(time)) * 86_400_000 + h * 3_600_000 + min * 60_000 + s * 1000 + ms
      ensures 0 <= h <= 23 && 0 <= min <= 59 && 0 <= s <= 59 && 0 <= ms <= 999 ==>
                Day(time) == Day(old(time)) && GetUTCHours() == h && GetUTCMinutes() == min && time % 60_000 == s * 1000 + ms
    {
      if 0 <= h <= 23 && 0 <= min <= 59 && 0 <= s <= 59 && 0 <= ms <= 999 {
        ClockOf(Day(time), h, min, s * 1000 + ms);
      }
      time := Day(time) * 86_400_000 + h * 3_600_000 + min * 60_000 + s * 1000 + ms;
    }

    /** The one-argument form: minutes and below keep their values; one past 23 is midnight of the next
        day. */
    method SetUTCHour(h: int)
      modifies this
      ensures time == Day(old(time)) * 86_400_000 + h * 3_600_000 + old(time) % 3_600_000
      ensures 0 <= h <= 23 ==> Day(time) == Day(old(time)) && GetUTCHours() == h
      ensures h == 24 ==> Day(time) == Day(old(time)) + 1 && GetUTCHours() == 0
      ensures GetUTCMinutes() == old(GetUTCMinutes()) && time % 60_000 == old(time) % 60_000
    {
      ClockBounds(time);
      OverHours(Day(time), h, Minute(time), time % 60_000);
      time := Day(time) * 86_400_000 + h * 3_600_000 + time % 3_600_000;
    }

    method SetUTCMinutes(min: int, s: int, ms: int)
      modifies this
      ensures time == Day(old(time)) * 86_400_000 + Hour(old(time)) * 3_600_000 + min * 60_000 + s * 1000 + ms
      ensures 0 <= min <= 59 && 0 <= s <= 59 && 0 <= ms <= 999 ==>
                Day(time) == Day(old(time)) && GetUTCHours() == old(GetUTCHours()) && GetUTCMinutes() == min
                && time % 60_000 == s * 1000 + ms
    {
      ClockBounds(time);
      if 0 <= min <= 59 && 0 <= s <= 59 && 0 <= ms <= 999 {
        ClockOf(Day(time), Hour(time), min, s * 1000 + ms);
      }
      time := Day(time) * 86_400_000 + Hour(time) * 3_600_000 + min * 60_000 + s * 1000 + ms;
    }

    /** The one-argument form: seconds and milliseconds keep their values; one past 59 is the next full
        hour. */
    method SetUTCMinute(min: int)
      modifies this
      ensures time == Day(old(time)) * 86_400_000 + Hour(old(time)) * 3_600_000 + min * 60_000 + old(time) % 60_000
      ensures 0 <= min <= 59 ==>
                Day(time) == Day(old(time)) && GetUTCHours() == old(GetUTCHours()) && GetUTCMinutes() == min
      ensures min == 60 ==> GetUTCMinutes() == 0 && GetUTCHours() == (old(GetUTCHours()) + 1) % 24
      ensures time % 60_000 == old(time) % 60_000
    {
      ClockBounds(time);
      OverMinutes(Day(time), Hour(time), min, time % 60_000);
      time := Day(time) * 86_400_000 + Hour(time) * 3_600_000 + min * 60_000 + time % 60_000;
    }

    method SetUTCSeconds(s: int, ms: int)
      modifies this
      ensures time == Day(old(time)) * 86_400_000 + Hour(old(time)) * 3_600_000
                      + Minute(old(time)) * 60_000 + s * 1000 + ms
      ensures 0 <= s <= 59 && 0 <= ms <= 999 ==>
                Day(time) == Day(old(time)) && GetUTCHours() == old(GetUTCHours())
                && GetUTCMinutes() == old(GetUTCMinutes()) && time % 60_000 == s * 1000 + ms
    {
      ClockBounds(time);
      if 0 <= s <= 59 && 0 <= ms <= 999 {
        ClockOf(Day(time), Hour(time), Minute(time), s * 1000 + ms);
      }
      time := Day(time) * 86_400_000 + Hour(time) * 3_600_000 + Minute(time) * 60_000 + s * 1000 + ms;
    }
  }

  lemma OverHours(d: int, h: int, min: int, rest: int)
    requires 0 <= min <= 59 && 0 <= rest < 60_000
    ensures var t := d * 86_400_000 + h * 3_600_000 + min * 60_000 + rest;
            && Minute(t) == min && t % 60_000 == rest
            && (0 <= h <= 23 ==> Day(t) == d && Hour(t) == h) && (h == 24 ==> Day(t) == d + 1 && Hour(t) == 0)
  {
    ClockOf(d + h / 24, h % 24, min, rest);
    assert d * 86_400_000 + h * 3_600_000 == (d + h / 24) * 86_400_000 + (h % 24) * 3_600_000;
  }

  lemma OverMinutes(d: int, h: int, min: int, rest: int)
    requires 0 <= h <= 23 && 0 <= rest < 60_000
    ensures var t := d * 86_400_000 + h * 3_600_000 + min * 60_000 + rest;
            && t % 60_000 == rest
            && (0 <= min <= 59 ==> Day(t) == d && Hour(t) == h && Minute(t) == min)
            && (min == 60 ==> Minute(t) == 0 && Hour(t) == (h + 1) % 24)
  {
    if 0 <= min <= 59 {
      ClockOf(d, h, min, rest);
    } else if min == 60 {
      ClockOf(if h == 23 then d + 1 else d, (h + 1) % 24, 0, rest);
    }
    assert (d * 86_400_000 + h * 3_600_000 + min * 60_000) % 60_000 == 0;
  }
}
