/**
When the bounded search is long enough: if in some listed month a matching day comes up every year,
a run is less than 397 days away from any instant; if days match on leap days only, the search can
come up empty. What lies between, the fifth weekday of a month, is settled in `CronFifth`.
 */
module CronBound {
  import opened Calendar
  import opened CronMatching
  import opened CronSearch

  ghost predicate AllWithin(s: seq<int>, lo: int, hi: int) {
    forall i :: 0 <= i < |s| ==> lo <= s[i] <= hi
  }

  /** What the field parsers guarantee of every parsed expression. */
  ghost predicate WellFormed(e: CronExpr) {
    && e.seconds != [] && AllWithin(e.seconds, 0, 59)
    && e.minutes != [] && AllWithin(e.minutes, 0, 59)
    && e.hours != [] && AllWithin(e.hours, 0, 23)
    && e.months != [] && AllWithin(e.months, 1, 12)
    && AllWithin(e.daysOfMonth, 1, 31)
    && AllWithin(e.daysOfWeek, 0, 6)
    && (e.domNearestWeekday.Some? ==> 1 <= e.domNearestWeekday.value <= 31)
    && (e.dowLast.Some? ==> 0 <= e.dowLast.value <= 6)
    && (e.dowNth.Some? ==> 0 <= e.dowNth.value.0 <= 6 && 1 <= e.dowNth.value.1 <= 5)
    && (e.domLast || e.domNearestWeekday.Some? || e.daysOfMonth != [])
    && (e.dowLast.Some? || e.dowNth.Some? || e.daysOfWeek != [])
  }

  /** Length of month `m` in the years it is shortest. */
  function ShortestLength(m: int): int {
    if m == 2 then 28 else if m == 4 || m == 6 || m == 9 || m == 11 then 30 else 31
  }

  predicate ReliableDom(e: CronExpr) {
    || e.domLast
    || e.domNearestWeekday.Some?
    || exists m, d :: m in e.months && d in e.daysOfMonth && d <= ShortestLength(m)
  }

  predicate ReliableDow(e: CronExpr) {
    || e.dowLast.Some?
    || (e.dowNth.Some? && e.dowNth.value.1 <= 4)
    || e.daysOfWeek != []
  }

  /** Some listed month has a matching day in every year. */
  predicate ReliableDays(e: CronExpr) {
    || (!e.domRestricted && !e.dowRestricted)
    || (e.domRestricted && ReliableDom(e))
    || (e.dowRestricted && ReliableDow(e))
  }

  // ---------------------------------------------------------------------------
  // Sufficiency
  // ---------------------------------------------------------------------------

  /** The first day on weekday `w` on or after day `n`. */
  function OnOrAfter(n: int, w: int): (x: int)
    requires 0 <= w <= 6
    ensures n <= x <= n + 6 && Weekday(x) == w
  {
    var x := n + (w - Weekday(n)) % 7;
    WeekdayShift(n, (w - Weekday(n)) % 7);
    x
  }

  ghost predicate InMonthOf(n: int, k: int) {
    DateOf(n).month == DateOf(k).month && DateOf(n).year == DateOf(k).year
  }

  /** In the month that starts on day `k`, a reliable day-of-month field matches some day. */
  lemma DomMatchInMonth(e: CronExpr, k: int, d: int) returns (n: int)
    requires WellFormed(e) && DateOf(k).day == 1
    requires e.domLast || e.domNearestWeekday.Some?
             || (d in e.daysOfMonth && d <= ShortestLength(DateOf(k).month))
    ensures k <= n <= k + 30 && InMonthOf(n, k) && DomMatches(e, n)
  {
    var date := DateOf(k);
    var len := MonthLength(date.year, date.month);
    LastDayIsMonthLength(date.year, date.month);
    if e.domLast {
      n := DayInMonth(k, len);
    } else if e.domNearestWeekday.Some? {
      ResolvedWeekdayIsNearest(FirstOfMonth(k), len, e.domNearestWeekday.value);
      n := DayInMonth(k, ResolvedWeekday(FirstOfMonth(k), len, e.domNearestWeekday.value));
    } else {
      n := DayInMonth(k, d);
    }
  }

  lemma LastInMonth(k: int, w: int) returns (n: int)
    requires DateOf(k).day == 1 && 0 <= w <= 6
    ensures k <= n <= k + 30 && InMonthOf(n, k)
    ensures Weekday(n) == w && DateOf(n + 7).month != DateOf(n).month
  {
    var len := MonthLength(DateOf(k).year, DateOf(k).month);
    n := OnOrAfter(k + len - 7, w);
    SameMonth(k, n - k);
    WeekLater(n);
  }

  lemma NthInMonth(k: int, w: int, nth: int) returns (n: int)
    requires DateOf(k).day == 1 && 0 <= w <= 6 && 1 <= nth <= 4
    ensures k <= n <= k + 30 && InMonthOf(n, k)
    ensures Weekday(n) == w && (DateOf(n).day - 1) / 7 + 1 == nth
  {
    var x := OnOrAfter(k, w);
    n := x + 7 * (nth - 1);
    WeekdayShift(x, 7 * (nth - 1));
    SameMonth(k, n - k);
    WeeksOn(x - k, nth - 1);
  }

  lemma WeeksOn(d: int, weeks: int)
    requires 0 <= d <= 6
    ensures (d + 7 * weeks) / 7 == weeks
  {
  }

  /** In the month that starts on day `k`, a reliable day-of-week field matches some day. */
  lemma DowMatchInMonth(e: CronExpr, k: int) returns (n: int)
    requires WellFormed(e) && ReliableDow(e) && DateOf(k).day == 1
    ensures k <= n <= k + 30 && InMonthOf(n, k) && DowMatches(e, n)
  {
    if e.dowLast.Some? {
      n := LastInMonth(k, e.dowLast.value);
    } else if e.dowNth.Some? && e.dowNth.value.1 <= 4 {
      n := NthInMonth(k, e.dowNth.value.0, e.dowNth.value.1);
    } else {
      n := NthInMonth(k, e.daysOfWeek[0], 1);
    }
  }

  /** Reliable day fields match on some day of a listed month within 396 days of any day. */
  lemma DayWithinAYear(e: CronExpr, from: int) returns (n: int)
    requires WellFormed(e) && ReliableDays(e)
    ensures from < n <= from + 396 && DateOf(n).month in e.months && DayMatches(e, n)
  {
    if e.domRestricted && ReliableDom(e) {
      var m, d := e.months[0], 0;
      if !e.domLast && !e.domNearestWeekday.Some? {
        m, d :| m in e.months && d in e.daysOfMonth && d <= ShortestLength(m);
      }
      var k := MonthComesWithinAYear(from, m);
      n := DomMatchInMonth(e, k, d);
    } else {
      var k := MonthComesWithinAYear(from, e.months[0]);
      if e.dowRestricted && ReliableDow(e) {
        n := DowMatchInMonth(e, k);
      } else {
        n := k;
      }
    }
  }

  /** A day and a time of day put together. */
  lemma TimeOnDay(n: int, h: int, m: int, s: int) returns (t: int)
    requires 0 <= h <= 23 && 0 <= m <= 59 && 0 <= s <= 59
    ensures DayOf(t) == n && HourOf(t) == h && MinuteOf(t) == m && SecondOf(t) == s
    ensures n * SECONDS_PER_DAY <= t < (n + 1) * SECONDS_PER_DAY
  {
    var ofDay := 3600 * h + 60 * m + s;
    t := SECONDS_PER_DAY * n + ofDay;
    assert t / 60 == 1440 * n + 60 * h + m;
    assert t / 3600 == 24 * n + h;
  }

  /** An expression without a year field and with reliable days fires within 397 days of any
      instant, whatever the clock offset and whichever step the search takes. */
  lemma FiresWithin397Days(e: CronExpr, offset: int, after: int) returns (x: int)
    requires WellFormed(e) && e.years.None? && ReliableDays(e)
    ensures after < x < after + 397 * SECONDS_PER_DAY * NANOS
    ensures x <= SearchEnd(e, offset, after)
    ensures Fires(e, offset, x)
  {
    var local := LocalSeconds(offset, after);
    var n := DayWithinAYear(e, DayOf(local));
    var t := TimeOnDay(n, e.hours[0], e.minutes[0], e.seconds[0]);
    assert MatchesLocal(e, t);
    FireAt(e, offset, after, t);
    x := (t - offset) * NANOS;
  }

  // ---------------------------------------------------------------------------
  // Necessity
  // ---------------------------------------------------------------------------

  /** Days from the first of March of `y` up to the end of year `last` are never a 29 February,
      when no year after `y` up to `last` is a leap year. */
  lemma {:induction false} NoLeapDay(march: int, y: int, last: int, n: int)
    requires DateOf(march) == Date(y, 3, 1) && y <= last
    requires forall z :: y < z <= last ==> !IsLeapYear(z)
    requires march <= n && DateOf(n).year <= last
    ensures !(DateOf(n).month == 2 && DateOf(n).day == 29)
  {
    if march < n {
      DatesAscend(march, n);
    }
  }

  lemma {:induction false} YearAfter(s: int, y: int, years: nat)
    requires DateOf(s) == Date(y, 1, 1)
    ensures exists t :: s + 365 * years <= t && DateOf(t) == Date(y + years, 1, 1)
  {
    if years > 0 {
      YearAfter(s, y, years - 1);
      var t :| s + 365 * (years - 1) <= t && DateOf(t) == Date(y + years - 1, 1, 1);
      var u := MonthOfYear(t, y + years - 1, 13);
    }
  }

  /** Within `365 * years + 300` days after 1 March of `y` the year stays at most `y + years`. */
  lemma YearStaysBelow(march: int, y: int, years: nat, n: int)
    requires DateOf(march) == Date(y, 3, 1) && march <= n <= march + 365 * years + 300
    ensures DateOf(n).year <= y + years
  {
    var s := YearStartOf(march);
    DaysBeforeTable(y, 3);
    YearAfter(s, y, years + 1);
    var t :| s + 365 * (years + 1) <= t && DateOf(t) == Date(y + years + 1, 1, 1);
    DatesAscend(n, t);
  }

  /** The day-of-week field asks for the fifth weekday of a month. */
  predicate AsksFifth(e: CronExpr) {
    e.dowRestricted && e.dowNth.Some? && e.dowNth.value.1 == 5
  }

  /** Some listed month has a fifth weekday in ordinary years. */
  predicate LongMonthListed(e: CronExpr) {
    exists m :: m in e.months && m != 2
  }

  /** Day fields that are not reliable can only ever match on a 29 February, unless they ask for the
      fifth weekday of a longer month. */
  lemma OnlyLeapDays(e: CronExpr, n: int)
    requires WellFormed(e) && !ReliableDays(e) && !(AsksFifth(e) && LongMonthListed(e))
    requires DateOf(n).month in e.months && DayMatches(e, n)
    ensures DateOf(n).month == 2 && DateOf(n).day == 29
  {
    var date := DateOf(n);
    if e.domRestricted && DomMatches(e, n) {
      LongerThanShortest(date);
    } else {
      assert AsksFifth(e);
      assert date.month == 2 && date.day >= 29;
    }
  }

  /** Only February is ever longer than in its shortest years. */
  lemma LongerThanShortest(date: Date)
    requires ValidDate(date) && date.day > ShortestLength(date.month)
    ensures date.month == 2 && date.day == 29
  {
  }

  /** A start from which the search finds nothing: 1 March of a year followed by enough years
      without a leap day, 2025 for the second-by-second search and 2097 for the minute search. */
  lemma UnreliableExhausted(e: CronExpr, offset: int) returns (after: int)
    requires WellFormed(e) && !ReliableDays(e) && !(AsksFifth(e) && LongMonthListed(e))
    ensures Exhausted(e, offset, after)
  {
    var y, years := if BySeconds(e) then 2025 else 2097, if BySeconds(e) then 2 else 6;
    var march := DateExists(Date(y, 3, 1));
    var local := march * SECONDS_PER_DAY;
    after := (local - offset) * NANOS;
    assert LocalSeconds(offset, after) == local;
    forall x | after < x <= SearchEnd(e, offset, after)
      ensures !Fires(e, offset, x)
    {
      var n := DayOf(LocalSeconds(offset, x));
      DayWithinSearch(e, offset, after, march, x);
      YearStaysBelow(march, y, years, n);
      NoLeapDay(march, y, y + years, n);
      if DateOf(n).month in e.months && DayMatches(e, n) {
        OnlyLeapDays(e, n);
      }
    }
  }

  lemma DayWithinSearch(e: CronExpr, offset: int, after: int, day: int, x: int)
    requires after == (day * SECONDS_PER_DAY - offset) * NANOS
    requires after < x <= SearchEnd(e, offset, after)
    ensures day <= DayOf(LocalSeconds(offset, x)) <= day + (if BySeconds(e) then 732 else 2196)
  {
    assert LocalSeconds(offset, after) == day * SECONDS_PER_DAY;
    assert day * SECONDS_PER_DAY <= LocalSeconds(offset, x) <= LastTick(e, day * SECONDS_PER_DAY);
  }
}
