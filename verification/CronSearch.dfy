/** `nextRunAfter`: the jumping search for the next minute an expression matches, proved equal
    to a plain minute-by-minute scan and bounded in its number of iterations. */
module CronSearch {
  import opened Text
  import opened Calendar
  import opened CronSyntax

  /** The search gives up 4 * 366 days after `from`. */
  function WindowEnd(from: int): (limit: int)
    ensures limit == from + 1464 * 86_400_000
  {
    from + 4 * 366 * 24 * 60 * 60 * 1000
  }

  /** Day of month and day of week are both required. */
  predicate DayAdmitted(d: int, p: ParsedCron)
  {
    MonthFromDay(d) + 1 in p.month && DateFromDay(d) in p.dayOfMonth && WeekDayFromDay(d) in p.dayOfWeek
  }

  predicate Matches(t: int, p: ParsedCron)
  {
    Minute(t) in p.minute && Hour(t) in p.hour && DayAdmitted(Day(t), p)
  }

  function NextMinute(t: int): int { (t / 60_000 + 1) * 60_000 }

  /** The plain scan: try every whole minute from `t` on. */
  function MinuteScan(p: ParsedCron, t: int, limit: int): Option<int>
    decreases limit - t
  {
    if t >= limit then None
    else if Matches(t, p) then Some(t)
    else MinuteScan(p, t + 60_000, limit)
  }

  ghost predicate NoMatchIn(p: ParsedCron, lo: int, hi: int)
  {
    forall t :: lo <= t < hi && WholeMinute(t) ==> !Matches(t, p)
  }

  /** The earliest whole matching minute of a window, or that there is none. */
  ghost predicate Earliest(r: Option<int>, p: ParsedCron, from: int, limit: int)
  {
    match r
    case Some(t) => from < t < limit && WholeMinute(t) && Matches(t, p) && NoMatchIn(p, from + 1, t)
    case None => NoMatchIn(p, from + 1, limit)
  }

  lemma WholeMinuteSteps(t: int)
    requires WholeMinute(t)
    ensures WholeMinute(t + 60_000)
    ensures forall u :: t < u < t + 60_000 ==> !WholeMinute(u)
  {}

  lemma {:induction false} ScanSkips(p: ParsedCron, t: int, u: int, limit: int)
    requires t <= u && WholeMinute(t) && WholeMinute(u) && NoMatchIn(p, t, u)
    ensures MinuteScan(p, t, limit) == MinuteScan(p, u, limit)
    decreases u - t
  {
    hide Matches, WholeMinute;
    if t < u && t < limit {
      WholeMinuteSteps(t);
      assert !Matches(t, p);
      assert t + 60_000 <= u;
      ScanSkips(p, t + 60_000, u, limit);
    }
  }

  lemma {:induction false} ScanFindsFirst(p: ParsedCron, t: int, limit: int)
    requires WholeMinute(t)
    ensures match MinuteScan(p, t, limit)
            case Some(r) => t <= r < limit && WholeMinute(r) && Matches(r, p) && NoMatchIn(p, t, r)
            case None => NoMatchIn(p, t, limit)
    decreases limit - t
  {
    hide Matches, WholeMinute;
    if t < limit && !Matches(t, p) {
      WholeMinuteSteps(t);
      ScanFindsFirst(p, t + 60_000, limit);
    }
  }

  lemma NextMinuteIsNext(t: int)
    ensures WholeMinute(NextMinute(t)) && t < NextMinute(t)
    ensures forall u :: t < u && WholeMinute(u) ==> NextMinute(t) <= u
  {}

  /** The scan from the next whole minute finds exactly the earliest match strictly after `from`
      and before the limit. */
  lemma ScanIsEarliest(p: ParsedCron, from: int, limit: int)
    ensures Earliest(MinuteScan(p, NextMinute(from), limit), p, from, limit)
  {
    hide Matches, WholeMinute, NextMinute, MinuteScan;
    NextMinuteIsNext(from);
    ScanFindsFirst(p, NextMinute(from), limit);
  }

  /** There is only one earliest match. */
  lemma EarliestIsUnique(a: Option<int>, b: Option<int>, p: ParsedCron, from: int, limit: int)
    requires Earliest(a, p, from, limit) && Earliest(b, p, from, limit)
    ensures a == b
  {
    hide Matches, WholeMinute;
  }

  // Instants, hours and days -------------------------------------------------------------------

  function HourIndex(t: int): int { t / 3_600_000 }

  lemma ClockFields(t: int)
    ensures Hour(t) == HourIndex(t) - 24 * Day(t) && 0 <= Hour(t) <= 23
    ensures Minute(t) == t / 60_000 - 60 * HourIndex(t) && 0 <= Minute(t) <= 59
  {
    var w := TimeWithinDay(t);
    assert t == Day(t) * 86_400_000 + w;
    assert HourIndex(t) == 24 * Day(t) + w / 3_600_000;
    var r := w % 3_600_000;
    assert t == HourIndex(t) * 3_600_000 + r;
    assert t / 60_000 == 60 * HourIndex(t) + r / 60_000;
  }

  lemma MidnightFields(d: int)
    ensures var t := d * 86_400_000;
            Day(t) == d && Hour(t) == 0 && Minute(t) == 0 && HourIndex(t) == 24 * d
            && TimeWithinDay(t) == 0 && WholeMinute(t)
  {}

  lemma DayBounds(t: int)
    ensures Day(t) * 86_400_000 <= t < (Day(t) + 1) * 86_400_000
    ensures forall u :: t <= u ==> Day(t) <= Day(u)
  {}

  lemma DayBefore(u: int, d: int)
    requires u < d * 86_400_000
    ensures Day(u) < d
  {}

  lemma HourBounds(t: int)
    ensures HourIndex(t) * 3_600_000 <= t < (HourIndex(t) + 1) * 3_600_000
    ensures forall u :: t <= u < (HourIndex(t) + 1) * 3_600_000 ==> HourIndex(u) == HourIndex(t) && Day(u) == Day(t)
  {
    forall u | t <= u < (HourIndex(t) + 1) * 3_600_000
      ensures HourIndex(u) == HourIndex(t) && Day(u) == Day(t)
    {
      ClockFields(t);
      ClockFields(u);
    }
  }

  lemma HourStartFields(h: int)
    ensures var t := h * 3_600_000; HourIndex(t) == h && Minute(t) == 0 && WholeMinute(t) && Day(t) == h / 24
  {
    var t := h * 3_600_000;
    assert t / 60_000 == 60 * h && t % 60_000 == 0;
    ClockFields(t);
  }

  // What each jump skips -----------------------------------------------------------------------

  lemma RestOfDayFails(p: ParsedCron, t: int)
    requires !DayAdmitted(Day(t), p)
    ensures NoMatchIn(p, t, (Day(t) + 1) * 86_400_000)
  {
    hide DayAdmitted;
    DayBounds(t);
  }

  lemma RestOfMonthFails(p: ParsedCron, t: int)
    requires MonthFromDay(Day(t)) + 1 !in p.month
    ensures NoMatchIn(p, t, NextMonthFirst(Day(t)) * 86_400_000)
  {
    hide Day, Hour, Minute, MonthFromDay, NextMonthFirst, MonthFirst, DateFromDay, WeekDayFromDay, MonthNumber, MonthStart, DayFromYear;
    MonthInterval(Day(t));
    DayBounds(t);
    forall u | t <= u < NextMonthFirst(Day(t)) * 86_400_000
      ensures !Matches(u, p)
    {
      DayBefore(u, NextMonthFirst(Day(t)));
      SameMonth(Day(t), Day(u));
    }
  }

  lemma RestOfHourFails(p: ParsedCron, t: int)
    requires Hour(t) !in p.hour
    ensures NoMatchIn(p, t, (HourIndex(t) + 1) * 3_600_000)
  {
    hide DayAdmitted, Day, HourIndex, Hour;
    HourBounds(t);
    ClockFields(t);
    forall u | t <= u < (HourIndex(t) + 1) * 3_600_000
      ensures !Matches(u, p)
    {
      ClockFields(u);
    }
  }

  lemma MinuteFails(p: ParsedCron, t: int)
    requires WholeMinute(t) && !Matches(t, p)
    ensures NoMatchIn(p, t, t + 60_000)
  {
    hide Matches, WholeMinute;
    WholeMinuteSteps(t);
  }

  // Where each group of setter calls lands -----------------------------------------------------

  method ToFirstCandidate(from: int) returns (candidate: UtcDate)
    ensures fresh(candidate) && candidate.time == NextMinute(from)
  {
    candidate := new UtcDate(from);
    ClockFields(from);
    candidate.SetUTCSeconds(0, 0);
    assert candidate.time == from / 60_000 * 60_000;
    ClockFields(candidate.time);
    candidate.SetUTCMinute(candidate.GetUTCMinutes() + 1);
  }

  method ToNextMinute(candidate: UtcDate)
    modifies candidate
    ensures candidate.time == old(candidate.time) + 60_000
  {
    ClockFields(candidate.time);
    candidate.SetUTCMinute(candidate.GetUTCMinutes() + 1);
  }

  method ToNextHour(candidate: UtcDate)
    modifies candidate
    ensures candidate.time == (HourIndex(old(candidate.time)) + 1) * 3_600_000
  {
    ghost var h := HourIndex(candidate.time);
    ClockFields(candidate.time);
    candidate.SetUTCMinutes(0, 0, 0);
    assert candidate.time == h * 3_600_000;
    ClockFields(h * 3_600_000);
    candidate.SetUTCHour(candidate.GetUTCHours() + 1);
  }

  method ToNextDay(candidate: UtcDate)
    modifies candidate
    ensures candidate.time == (Day(old(candidate.time)) + 1) * 86_400_000
  {
    hide Day, Hour, Minute, TimeWithinDay, MonthFirst, NextMonthFirst, MakeDay, YearFromDay, MonthFromDay, DateFromDay;
    hide MonthStart, DayFromYear;
    ghost var d := Day(candidate.time);
    candidate.SetUTCHours(0, 0, 0, 0);
    assert candidate.time == d * 86_400_000;
    MidnightFields(d);
    DateCounts(d, DateFromDay(d) + 1);
    candidate.SetUTCDate(candidate.GetUTCDate() + 1);
  }

  lemma WithinDay(t: int)
    ensures 0 <= TimeWithinDay(t) < 86_400_000
  {}

  lemma DateSplits(d: int, w: int)
    requires 0 <= w < 86_400_000
    ensures Day(d * 86_400_000 + w) == d
  {}

  method ToNextMonth(candidate: UtcDate)
    modifies candidate
    ensures candidate.time == NextMonthFirst(Day(old(candidate.time))) * 86_400_000
  {
    hide Day, Hour, Minute, TimeWithinDay, MonthFirst, NextMonthFirst, MakeDay, YearFromDay, MonthFromDay, DateFromDay;
    hide MonthStart, DayFromYear;
    ghost var d := Day(candidate.time);
    DateCounts(d, 1);
    WithinDay(candidate.time);
    DateSplits(MonthFirst(d), TimeWithinDay(candidate.time));
    candidate.SetUTCDate(1);
    assert Day(candidate.time) == MonthFirst(d);
    candidate.SetUTCHours(0, 0, 0, 0);
    assert candidate.time == MonthFirst(d) * 86_400_000;
    MidnightFields(MonthFirst(d));
    MonthOverflow(d);
    candidate.SetUTCMonth(candidate.GetUTCMonth() + 1);
  }

  // Counting iterations ------------------------------------------------------------------------

  datatype Tally = Tally(months: nat, days: nat, hours: nat, minutes: nat) {
    function Total(): nat { months + days + hours + minutes }
  }

  /** What the counting argument reads off an instant: month, day and hour numbers, the hour of
      the day, the minute of the hour and whether the day matches. */
  datatype Reading = Reading(month: int, day: int, hourIndex: int, hour: int, minute: int, dayOk: bool)

  function Read(t: int, p: ParsedCron): (r: Reading)
  {
    Reading(MonthNumber(Day(t)), Day(t), HourIndex(t), Hour(t), Minute(t), DayAdmitted(Day(t), p))
  }

  /** How any two readings of increasing instants relate. */
  ghost predicate Follows(a: Reading, b: Reading)
  {
    && 0 <= a.hour <= 23 && 0 <= a.minute <= 59 && a.hourIndex == 24 * a.day + a.hour
    && 0 <= b.hour <= 23 && 0 <= b.minute <= 59 && b.hourIndex == 24 * b.day + b.hour
    && a.month <= b.month && 28 * (b.month - a.month - 1) <= b.day - a.day
    && a.day <= b.day && (a.day == b.day ==> a.dayOk == b.dayOk)
    && a.hourIndex <= b.hourIndex
  }

  lemma ReadingsFollow(t: int, u: int, p: ParsedCron)
    requires t <= u
    ensures Follows(Read(t, p), Read(u, p))
  {
    hide DayAdmitted, MonthNumber;
    ClockFields(t);
    ClockFields(u);
    MonthsGrow(Day(t), Day(u));
  }

  /** What the loop has spent so far, charged to calendar progress since `a`. Past the first day
      the search enters a day at midnight and leaves it only by a day or month jump at midnight,
      because the hour set is not empty; past the first hour the same holds for minutes. */
  ghost predicate Charged(p: ParsedCron, a: Reading, b: Reading, c: Tally)
  {
    && Follows(a, b)
    && c.months <= b.month - a.month
    && c.days <= b.day - a.day
    && c.hours <= (if b.day == a.day then b.hour - a.hour else 24 + b.hour)
    && c.minutes <= (if b.hourIndex == a.hourIndex then b.minute - a.minute else 60 + b.minute)
    && (b.day != a.day && (b.hour > 0 || b.minute > 0) ==>
          b.dayOk && forall h :: 0 <= h < b.hour ==> h !in p.hour)
    && (b.hourIndex != a.hourIndex && b.minute > 0 ==>
          b.dayOk && b.hour in p.hour && forall m :: 0 <= m < b.minute ==> m !in p.minute)
  }

  lemma ChargeMinute(p: ParsedCron, a: Reading, b: Reading, n: Reading, c: Tally)
    requires WellFormed(p) && Charged(p, a, b, c) && Follows(b, n) && Follows(a, n)
    requires b.dayOk && b.hour in p.hour && b.minute !in p.minute
    requires 60 * n.hourIndex + n.minute == 60 * b.hourIndex + b.minute + 1
    ensures Charged(p, a, n, c.(minutes := c.minutes + 1))
  {
    if b.minute == 59 && b.hourIndex != a.hourIndex {
      assert forall m :: m !in p.minute;
      assert false;
    }
  }

  lemma ChargeHour(p: ParsedCron, a: Reading, b: Reading, n: Reading, c: Tally)
    requires WellFormed(p) && Charged(p, a, b, c) && Follows(b, n) && Follows(a, n)
    requires b.dayOk && b.hour !in p.hour
    requires n.hourIndex == b.hourIndex + 1 && n.minute == 0
    ensures Charged(p, a, n, c.(hours := c.hours + 1))
  {
    if b.hour == 23 && b.day != a.day {
      assert forall h :: h !in p.hour;
      assert false;
    }
  }

  lemma ChargeDay(p: ParsedCron, a: Reading, b: Reading, n: Reading, c: Tally)
    requires Charged(p, a, b, c) && Follows(b, n) && Follows(a, n) && !b.dayOk
    requires n.day == b.day + 1 && n.hour == 0 && n.minute == 0
    ensures Charged(p, a, n, c.(days := c.days + 1))
  {}

  lemma ChargeMonth(p: ParsedCron, a: Reading, b: Reading, n: Reading, c: Tally)
    requires Charged(p, a, b, c) && Follows(b, n) && Follows(a, n) && !b.dayOk
    requires n.day > b.day && n.hour == 0 && n.minute == 0 && n.month == b.month + 1
    ensures Charged(p, a, n, c.(months := c.months + 1))
  {}

  // What every iteration keeps -----------------------------------------------------------------

  ghost predicate Searching(p: ParsedCron, first: int, t: int, limit: int, spent: Tally)
  {
    && WholeMinute(t) && first <= t
    && MinuteScan(p, t, limit) == MinuteScan(p, first, limit)
    && Charged(p, Read(first, p), Read(t, p), spent)
  }

  lemma SearchStarts(p: ParsedCron, from: int, limit: int)
    ensures Searching(p, NextMinute(from), NextMinute(from), limit, Tally(0, 0, 0, 0))
    ensures Tally(0, 0, 0, 0).Total() == 0
  {
    hide NextMinute, WholeMinute, Read, MinuteScan;
    NextMinuteIsNext(from);
    ReadingsFollow(NextMinute(from), NextMinute(from), p);
  }

  lemma SearchEnds(p: ParsedCron, first: int, t: int, limit: int, c: Tally)
    requires Searching(p, first, t, limit, c)
    ensures t < limit && Matches(t, p) ==> MinuteScan(p, first, limit) == Some(t)
    ensures t >= limit ==> MinuteScan(p, first, limit) == None
  {
    hide Matches, Charged, Read, WholeMinute;
  }

  lemma SearchLimit(p: ParsedCron, from: int, t: int, c: Tally)
    requires t < WindowEnd(from) && Searching(p, NextMinute(from), t, WindowEnd(from), c)
    ensures c.Total() < 1700
  {
    hide MinuteScan, WholeMinute, NextMinute, MonthNumber, HourIndex, Hour, Minute, DayAdmitted;
    var first := NextMinute(from);
    NextMinuteIsNext(from);
    assert Day(t) <= Day(first) + 1464;
    assert Read(t, p).day == Day(t) && Read(first, p).day == Day(first);
  }

  lemma MinuteKeeps(p: ParsedCron, first: int, t: int, limit: int, c: Tally)
    requires WellFormed(p) && Searching(p, first, t, limit, c)
    requires DayAdmitted(Day(t), p) && Hour(t) in p.hour && !Matches(t, p)
    ensures Searching(p, first, t + 60_000, limit, c.(minutes := c.minutes + 1))
  {
    hide WholeMinute, MinuteScan, DayAdmitted, WellFormed, Charged, Day, Hour, Minute, HourIndex;
    var u := t + 60_000;
    WholeMinuteSteps(t);
    MinuteFails(p, t);
    ScanSkips(p, t, u, limit);
    ReadingsFollow(first, u, p);
    ReadingsFollow(t, u, p);
    ClockFields(t);
    ClockFields(u);
    assert u / 60_000 == t / 60_000 + 1;
    ChargeMinute(p, Read(first, p), Read(t, p), Read(u, p), c);
  }

  lemma HourKeeps(p: ParsedCron, first: int, t: int, limit: int, c: Tally)
    requires WellFormed(p) && Searching(p, first, t, limit, c)
    requires DayAdmitted(Day(t), p) && Hour(t) !in p.hour
    ensures var u := (HourIndex(t) + 1) * 3_600_000;
            t < u && Searching(p, first, u, limit, c.(hours := c.hours + 1))
  {
    hide WholeMinute, MinuteScan, DayAdmitted, WellFormed, Charged, Day, Hour, Minute, HourIndex;
    var u := (HourIndex(t) + 1) * 3_600_000;
    HourStartFields(HourIndex(t) + 1);
    HourBounds(t);
    RestOfHourFails(p, t);
    ScanSkips(p, t, u, limit);
    ReadingsFollow(first, u, p);
    ReadingsFollow(t, u, p);
    ChargeHour(p, Read(first, p), Read(t, p), Read(u, p), c);
  }

  lemma DayKeeps(p: ParsedCron, first: int, t: int, limit: int, c: Tally)
    requires Searching(p, first, t, limit, c) && !DayAdmitted(Day(t), p)
    ensures var u := (Day(t) + 1) * 86_400_000;
            t < u && Searching(p, first, u, limit, c.(days := c.days + 1))
  {
    hide WholeMinute, MinuteScan, DayAdmitted, Charged, Day, Hour, Minute, HourIndex, MonthNumber;
    var u := (Day(t) + 1) * 86_400_000;
    MidnightFields(Day(t) + 1);
    DayBounds(t);
    RestOfDayFails(p, t);
    ScanSkips(p, t, u, limit);
    ReadingsFollow(first, u, p);
    ReadingsFollow(t, u, p);
    ChargeDay(p, Read(first, p), Read(t, p), Read(u, p), c);
  }

  lemma MonthKeeps(p: ParsedCron, first: int, t: int, limit: int, c: Tally)
    requires Searching(p, first, t, limit, c) && MonthFromDay(Day(t)) + 1 !in p.month
    ensures var u := NextMonthFirst(Day(t)) * 86_400_000;
            t < u && Searching(p, first, u, limit, c.(months := c.months + 1))
  {
    hide WholeMinute, MinuteScan, MonthFromDay, NextMonthFirst, Charged, Day, Hour, Minute, HourIndex, MonthNumber;
    var d := NextMonthFirst(Day(t));
    var u := d * 86_400_000;
    MonthAdvances(Day(t));
    MidnightFields(d);
    DayBounds(t);
    assert t < u;
    RestOfMonthFails(p, t);
    ScanSkips(p, t, u, limit);
    ReadingsFollow(first, u, p);
    ReadingsFollow(t, u, p);
    ChargeMonth(p, Read(first, p), Read(t, p), Read(u, p), c);
  }

  /** One unsuccessful iteration: the largest jump the first failing field allows. */
  method Advance(candidate: UtcDate, p: ParsedCron, ghost first: int, ghost limit: int, ghost spent: Tally)
    returns (ghost spent': Tally)
    requires WellFormed(p) && Searching(p, first, candidate.time, limit, spent)
    requires !Matches(candidate.time, p)
    modifies candidate
    ensures old(candidate.time) < candidate.time && spent'.Total() == spent.Total() + 1
    ensures Searching(p, first, candidate.time, limit, spent')
  {
    hide Searching, WellFormed, NextMonthFirst, MonthFromDay, DateFromDay, WeekDayFromDay, Hour, Minute, Day, HourIndex;
    ghost var t := candidate.time;
    if candidate.GetUTCMonth() + 1 !in p.month {
      MonthKeeps(p, first, t, limit, spent);
      ToNextMonth(candidate);
      spent' := spent.(months := spent.months + 1);
    } else if candidate.GetUTCDate() !in p.dayOfMonth || candidate.GetUTCDay() !in p.dayOfWeek {
      DayKeeps(p, first, t, limit, spent);
      ToNextDay(candidate);
      spent' := spent.(days := spent.days + 1);
    } else if candidate.GetUTCHours() !in p.hour {
      HourKeeps(p, first, t, limit, spent);
      ToNextHour(candidate);
      spent' := spent.(hours := spent.hours + 1);
    } else {
      MinuteKeeps(p, first, t, limit, spent);
      ToNextMinute(candidate);
      spent' := spent.(minutes := spent.minutes + 1);
    }
  }

  /** The search loop. It returns what the plain scan returns, in at most 1700 iterations. */
  method Search(p: ParsedCron, from: int) returns (r: Option<int>, ghost steps: nat)
    requires WellFormed(p)
    ensures r == MinuteScan(p, NextMinute(from), WindowEnd(from))
    ensures steps <= 1700
  {
    hide *;
    var candidate := ToFirstCandidate(from);
    var maxDate := WindowEnd(from);
    ghost var first := NextMinute(from);
    ghost var spent := Tally(0, 0, 0, 0);
    SearchStarts(p, from, maxDate);
    steps := 0;
    while candidate.time < maxDate
      invariant Searching(p, first, candidate.time, maxDate, spent)
      invariant steps == spent.Total() <= 1700
      decreases maxDate - candidate.time
    {
      SearchLimit(p, from, candidate.time, spent);
      SearchEnds(p, first, candidate.time, maxDate, spent);
      steps := steps + 1;
      if Matches(candidate.time, p) {
        return Some(candidate.time), steps;
      }
      spent := Advance(candidate, p, first, maxDate, spent);
    }
    SearchEnds(p, first, candidate.time, maxDate, spent);
    r := None;
  }

  /** The specification of `nextRunAfter`: the plain scan of the parsed expression. */
  function NextRun(expr: string, from: int): Result<Option<int>, CronError>
  {
    match ParseCron(expr)
    case Err(e) => Err(e)
    case Ok(p) => Ok(MinuteScan(p, NextMinute(from), WindowEnd(from)))
  }

  /** An instant is a whole minute whose minute, hour, date, month and week day are all in the sets of
      the expression, said by the calendar fields alone. */
  ghost predicate HasAllFive(t: int, p: ParsedCron)
  {
    && t % 60_000 == 0
    && Minute(t) in p.minute && Hour(t) in p.hour
    && DateFromDay(Day(t)) in p.dayOfMonth && MonthFromDay(Day(t)) + 1 in p.month && WeekDayFromDay(Day(t)) in p.dayOfWeek
  }

  /** The earliest match, by fields. */
  lemma EarliestByFields(r: Option<int>, p: ParsedCron, from: int)
    ensures Earliest(r, p, from, WindowEnd(from)) <==>
              match r
              case Some(t) =>
                from < t < from + 1464 * 86_400_000 && HasAllFive(t, p) && forall u :: from < u < t ==> !HasAllFive(u, p)
              case None => forall u :: from < u < from + 1464 * 86_400_000 ==> !HasAllFive(u, p)
  {
    hide Minute, Hour, Day, DateFromDay, MonthFromDay, WeekDayFromDay, Matches, WholeMinute, HasAllFive;
    forall u
      ensures HasAllFive(u, p) <==> WholeMinute(u) && Matches(u, p)
    {
      MatchByFields(u, p);
    }
  }

  lemma MatchByFields(u: int, p: ParsedCron)
    ensures HasAllFive(u, p) <==> WholeMinute(u) && Matches(u, p)
  {
    hide Minute, Hour, Day, DateFromDay, MonthFromDay, WeekDayFromDay;
  }

  /** `nextRunAfter`: fails exactly when the expression does not parse; otherwise it returns the
      earliest whole matching minute strictly after `from` and before `from` + 1464 days, or None
      when there is none. */
  method NextRunAfter(expr: string, from: int) returns (r: Result<Option<int>, CronError>)
    ensures r == NextRun(expr, from)
    ensures r.Err? <==> ParseCron(expr).Err?
    ensures r.Ok? ==> Earliest(r.value, ParseCron(expr).value, from, WindowEnd(from))
    ensures r.Ok? && r.value.Some? ==>
              var t, p := r.value.value, ParseCron(expr).value;
              && from < t < from + 1464 * 86_400_000 && t % 60_000 == 0
              && Minute(t) in p.minute && Hour(t) in p.hour && DateFromDay(Day(t)) in p.dayOfMonth
              && MonthFromDay(Day(t)) + 1 in p.month && WeekDayFromDay(Day(t)) in p.dayOfWeek
              && forall u :: from < u < t ==> !HasAllFive(u, p)
    ensures r.Ok? && r.value.None? ==>
              forall u :: from < u < from + 1464 * 86_400_000 ==> !HasAllFive(u, ParseCron(expr).value)
  {
    hide ParseCron, Earliest, MinuteScan, NextMinute, WellFormed, Minute, Hour, Day, DateFromDay, MonthFromDay, WeekDayFromDay;
    var parsed := ParseCron(expr);
    if parsed.Err? {
      return Err(parsed.error);
    }
    ParsedIsWellFormed(expr);
    var found, _ := Search(parsed.value, from);
    ScanIsEarliest(parsed.value, from, WindowEnd(from));
    EarliestByFields(found, parsed.value, from);
    r := Ok(found);
  }
}
