/**
Expressions that ask for the fifth weekday of a month. It comes up every year in no month but
several times a year in some, so whether the search is long enough depends on the listed months.
 */
module CronFifth {
  import opened Calendar
  import opened CronMatching
  import opened CronSearch
  import opened CronBound

  /** A day on which the expression can fire. */
  predicate Hits(e: CronExpr, n: int) {
    DateOf(n).month in e.months && DayMatches(e, n)
  }

  /** The fifth weekday decides: the day fields are not reliable without it. */
  ghost predicate FifthDecides(e: CronExpr) {
    WellFormed(e) && e.years.None? && !ReliableDays(e) && AsksFifth(e) && LongMonthListed(e)
  }

  /** Such an expression hits the fifth weekdays of its months, and leap days if 29 is listed too. */
  predicate LeapDayListed(e: CronExpr) {
    e.domRestricted && 29 in e.daysOfMonth && 2 in e.months
  }

  lemma HitsAre(e: CronExpr, n: int)
    requires FifthDecides(e)
    ensures var d := DateOf(n);
            Hits(e, n) <==>
            || (d.month in e.months && d.day >= 29 && Weekday(n) == e.dowNth.value.0)
            || (LeapDayListed(e) && d.month == 2 && d.day == 29)
  {
  }

  // ---------------------------------------------------------------------------
  // Six years are enough
  // ---------------------------------------------------------------------------

  lemma SameMonthNextYear(k: int) returns (k': int)
    requires DateOf(k).day == 1
    ensures DateOf(k') == Date(DateOf(k).year + 1, DateOf(k).month, 1)
    ensures k + 365 <= k' <= k + 366
  {
    var d := DateOf(k);
    var s := YearStartOf(k);
    DaysBeforeTable(d.year, d.month);
    var s' := MonthOfYear(s, d.year, 13);
    k' := MonthOfYear(s', d.year + 1, d.month);
  }

  lemma SameMonthLastYear(k: int) returns (k': int)
    requires DateOf(k).day == 1
    ensures DateOf(k') == Date(DateOf(k).year - 1, DateOf(k).month, 1)
    ensures k' + 365 <= k <= k' + 366
  {
    var d := DateOf(k);
    var s := YearStartOf(k);
    DaysBeforeTable(d.year, d.month);
    var s' := YearExists(d.year - 1);
    var s'' := MonthOfYear(s', d.year - 1, 13);
    SameDay(s, s'');
    k' := MonthOfYear(s', d.year - 1, d.month);
  }

  /** Two day numbers with the same date are the same. */
  lemma SameDay(a: int, b: int)
    requires DateOf(a) == DateOf(b)
    ensures a == b
  {
    if a < b {
      DatesAscend(a, b);
    } else if b < a {
      DatesAscend(b, a);
    }
  }

  /** How far into a month starting on day `k` weekday `w` first comes up. */
  function Lead(k: int, w: int): (r: int)
    ensures 0 <= r <= 6
  {
    (w - Weekday(k)) % 7
  }

  /** With a lead of at most one day a month of 30 days or more has a fifth weekday. */
  lemma FifthInMonth(k: int, w: int) returns (n: int)
    requires DateOf(k).day == 1 && DateOf(k).month != 2 && 0 <= w <= 6 && Lead(k, w) <= 1
    ensures n == k + 28 + Lead(k, w) && DateOf(n).month == DateOf(k).month && DateOf(n).day >= 29 && Weekday(n) == w
  {
    n := k + 28 + Lead(k, w);
    SameMonth(k, n - k);
    WeekdayShift(k, n - k);
  }

  /** A year on, the lead is a day less, or two over a leap day. */
  lemma LeadShrinks(k: int, k': int, w: int)
    requires 0 <= w <= 6 && k + 365 <= k' <= k + 366
    ensures Lead(k', w) == (Lead(k, w) - (k' - k - 364)) % 7
  {
    WeekdayShift(k, k' - k);
  }

  /** So it comes down to at most one within as many years. */
  lemma {:induction false} FifthSoon(k: int, w: int, lead: int) returns (n: int)
    requires DateOf(k).day == 1 && DateOf(k).month != 2 && 0 <= w <= 6 && lead == Lead(k, w)
    ensures k + 28 <= n <= k + 29 + 365 * (if lead == 0 then 0 else lead - 1)
    ensures DateOf(n).month == DateOf(k).month && DateOf(n).day >= 29 && Weekday(n) == w
    decreases lead
  {
    if lead <= 1 {
      n := FifthInMonth(k, w);
    } else {
      var k' := SameMonthNextYear(k);
      LeadDrops(k, k', w);
      n := FifthSoon(k', w, Lead(k', w));
    }
  }

  lemma LeadDrops(k: int, k': int, w: int)
    requires 0 <= w <= 6 && k + 365 <= k' <= k + 366 && Lead(k, w) >= 2
    ensures Lead(k', w) == Lead(k, w) - (k' - k - 364)
  {
    LeadShrinks(k, k', w);
  }

  /** In a month other than February a fifth weekday is never more than 2192 days away. */
  lemma FifthWithinSixYears(from: int, w: int, m: int) returns (n: int)
    requires 0 <= w <= 6 && 1 <= m <= 12 && m != 2
    ensures from < n <= from + 2192
    ensures DateOf(n).month == m && DateOf(n).day >= 29 && Weekday(n) == w
  {
    var k := MonthComesWithinAYear(from, m);
    var before := SameMonthLastYear(k);
    LeadShrinks(before, k, w);
    if Lead(before, w) <= 1 && from < before + 28 + Lead(before, w) {
      n := FifthInMonth(before, w);
    } else {
      n := FifthSoon(k, w, Lead(k, w));
    }
  }

  /** So in minute steps the search is always long enough. */
  lemma FifthFiresByMinutes(e: CronExpr, offset: int, after: int)
    requires FifthDecides(e) && !BySeconds(e)
    ensures !Exhausted(e, offset, after)
  {
    var m :| m in e.months && m != 2;
    var local := LocalSeconds(offset, after);
    var n := FifthWithinSixYears(DayOf(local), e.dowNth.value.0, m);
    HitsAre(e, n);
    var t := TimeOnDay(n, e.hours[0], e.minutes[0], e.seconds[0]);
    assert MatchesLocal(e, t);
    FireAt(e, offset, after, t);
  }

  // ---------------------------------------------------------------------------
  // Two years are enough for some months only
  // ---------------------------------------------------------------------------

  /** The last days of listed months, by day of the year: those a fifth weekday can fall on. */
  predicate MonthTail(months: seq<int>, leap: bool, i: int) {
    exists m :: m in months && 1 <= m <= 12 && CumulativeDays(leap, m) + 28 <= i < CumulativeDays(leap, m + 1)
  }

  function YearDays(leap: bool): int {
    if leap then 366 else 365
  }

  function FirstYear(k: int): int {
    YearDays(k == 0)
  }

  /** Three years of which the one numbered `k`, if any, is a leap year, by day from their start:
      whether day `i` is hit if the weekday comes up on the days congruent to `p`. */
  predicate HitInThree(months: seq<int>, leapDay: bool, p: int, k: int, i: int) {
    var a := YearDays(k == 0);
    var b := a + YearDays(k == 1);
    var c := b + YearDays(k == 2);
    if i < a then HitInYear(months, leapDay, i % 7 == p, k == 0, i)
    else if i < b then HitInYear(months, leapDay, i % 7 == p, k == 1, i - a)
    else i < c && HitInYear(months, leapDay, i % 7 == p, k == 2, i - b)
  }

  predicate HitInYear(months: seq<int>, leapDay: bool, weekday: bool, leap: bool, i: int) {
    (weekday && MonthTail(months, leap, i)) || (leapDay && leap && i == 59)
  }

  /** In whatever way the weekday and the leap year fall, a day hit in the first year is followed by
      another within 732 days. */
  predicate Dense(months: seq<int>, leapDay: bool) {
    forall p, k, i :: 0 <= p <= 6 && 0 <= k <= 3 && 0 <= i < FirstYear(k) && HitInThree(months, leapDay, p, k, i) ==>
      Followed(months, leapDay, p, k, i)
  }

  predicate Followed(months: seq<int>, leapDay: bool, p: int, k: int, i: int) {
    exists j :: i < j <= i + 732 && HitInThree(months, leapDay, p, k, j)
  }

  /** The date of a day counted from the start of its year. */
  lemma DayInYear(s: int, y: int, i: int)
    requires DateOf(s) == Date(y, 1, 1) && 0 <= i < YearDays(IsLeapYear(y))
    ensures var d := DateOf(s + i); d.year == y && i == CumulativeDays(IsLeapYear(y), d.month) + d.day - 1
  {
    var next := MonthOfYear(s, y, 13);
    if i > 0 {
      DatesAscend(s, s + i);
    }
    DatesAscend(s + i, next);
    var s' := YearStartOf(s + i);
    SameDay(s, s');
    DaysBeforeTable(y, DateOf(s + i).month);
  }

  lemma TailOfMonth(months: seq<int>, leap: bool, m: int, day: int)
    requires 1 <= m <= 12 && 1 <= day <= CumulativeDays(leap, m + 1) - CumulativeDays(leap, m)
    ensures MonthTail(months, leap, CumulativeDays(leap, m) + day - 1) <==> m in months && day >= 29
  {
    var i := CumulativeDays(leap, m) + day - 1;
    forall x | 1 <= x <= 12 && CumulativeDays(leap, x) <= i < CumulativeDays(leap, x + 1)
      ensures x == m
    {
      MonthsApart(leap, x, m);
      MonthsApart(leap, m, x);
    }
  }

  lemma {:induction false} MonthsApart(leap: bool, a: int, b: int)
    requires 1 <= a <= 12 && 1 <= b <= 12
    ensures a < b ==> CumulativeDays(leap, a + 1) <= CumulativeDays(leap, b)
  {
  }

  lemma MonthSpan(y: int, m: int)
    requires 1 <= m <= 12
    ensures CumulativeDays(IsLeapYear(y), m + 1) == CumulativeDays(IsLeapYear(y), m) + MonthLength(y, m)
  {
  }

  lemma HitByYear(e: CronExpr, s: int, y: int, i: int)
    requires FifthDecides(e) && DateOf(s) == Date(y, 1, 1) && 0 <= i < YearDays(IsLeapYear(y))
    ensures Hits(e, s + i) <==>
            HitInYear(e.months, LeapDayListed(e), Weekday(s + i) == e.dowNth.value.0, IsLeapYear(y), i)
  {
    var d := DateOf(s + i);
    DayInYear(s, y, i);
    MonthSpan(y, d.month);
    HitsAre(e, s + i);
    HitByDate(e.months, LeapDayListed(e), Weekday(s + i) == e.dowNth.value.0, IsLeapYear(y), d.month, d.day);
  }

  lemma HitByDate(months: seq<int>, leapDay: bool, weekday: bool, leap: bool, m: int, day: int)
    requires 1 <= m <= 12 && 1 <= day <= CumulativeDays(leap, m + 1) - CumulativeDays(leap, m)
    ensures HitInYear(months, leapDay, weekday, leap, CumulativeDays(leap, m) + day - 1) <==>
            (m in months && day >= 29 && weekday) || (leapDay && m == 2 && day == 29)
  {
    TailOfMonth(months, leap, m, day);
    LeapDayIndex(m, day, leap);
  }

  lemma LeapDayIndex(m: int, day: int, leap: bool)
    requires 1 <= m <= 12 && 1 <= day <= CumulativeDays(leap, m + 1) - CumulativeDays(leap, m)
    ensures m == 2 && day == 29 <==> leap && CumulativeDays(leap, m) + day - 1 == 59
  {
  }

  /** Which of the three years from `y` on is a leap year; 3 if none is. */
  predicate LeapsAt(y: int, k: int) {
    && 0 <= k <= 3
    && (IsLeapYear(y) <==> k == 0) && (IsLeapYear(y + 1) <==> k == 1) && (IsLeapYear(y + 2) <==> k == 2)
  }

  lemma LeapOfThree(y: int) returns (k: int)
    ensures LeapsAt(y, k)
  {
    k := if IsLeapYear(y) then 0 else if IsLeapYear(y + 1) then 1 else if IsLeapYear(y + 2) then 2 else 3;
  }

  lemma LeadWeekday(s: int, w: int, i: int)
    requires 0 <= w <= 6
    ensures Weekday(s + i) == w <==> i % 7 == Lead(s, w)
  {
    WeekdayShift(s, i);
  }

  lemma EarlyJanuary(e: CronExpr, s: int, y: int, i: int)
    requires FifthDecides(e) && DateOf(s) == Date(y, 1, 1) && 0 <= i <= 27
    ensures !Hits(e, s + i)
  {
    SameMonth(s, i);
    HitsAre(e, s + i);
  }

  lemma NextYearStart(s: int, y: int) returns (s': int)
    requires DateOf(s) == Date(y, 1, 1)
    ensures s' == s + YearDays(IsLeapYear(y)) && DateOf(s') == Date(y + 1, 1, 1)
  {
    s' := MonthOfYear(s, y, 13);
  }

  /** Where day `i` from the start of year `y` falls: the year, its start and the day in it. */
  lemma YearOfDay(s: int, y: int, k: int, i: int) returns (s': int, y': int)
    requires DateOf(s) == Date(y, 1, 1) && LeapsAt(y, k) && 0 <= i <= 1098
    ensures y <= y' <= y + 3 && DateOf(s') == Date(y', 1, 1) && s <= s' <= s + i
    ensures y' == y ==> s' == s && i < YearDays(k == 0)
    ensures y' == y + 1 ==> s' == s + YearDays(k == 0) && i < YearDays(k == 0) + YearDays(k == 1)
    ensures y' == y + 2 ==> s' == s + YearDays(k == 0) + YearDays(k == 1)
                            && i < YearDays(k == 0) + YearDays(k == 1) + YearDays(k == 2)
    ensures y' == y + 3 ==> s' == s + YearDays(k == 0) + YearDays(k == 1) + YearDays(k == 2)
  {
    s', y' := s, y;
    var s1 := NextYearStart(s, y);
    if s1 <= s + i {
      s', y' := s1, y + 1;
      var s2 := NextYearStart(s1, y + 1);
      if s2 <= s + i {
        s', y' := s2, y + 2;
        var s3 := NextYearStart(s2, y + 2);
        if s3 <= s + i {
          s', y' := s3, y + 3;
        }
      }
    }
  }

  /** The finite picture of three years is what the calendar shows. */
  lemma HitByWindow(e: CronExpr, s: int, y: int, k: int, i: int)
    requires FifthDecides(e) && DateOf(s) == Date(y, 1, 1) && LeapsAt(y, k) && 0 <= i <= 1098
    ensures Hits(e, s + i) <==> HitInThree(e.months, LeapDayListed(e), Lead(s, e.dowNth.value.0), k, i)
  {
    var s', y' := YearOfDay(s, y, k, i);
    LeadWeekday(s, e.dowNth.value.0, i);
    InOneOfThree(e.months, LeapDayListed(e), Lead(s, e.dowNth.value.0), k, i, y' - y);
    if y' == y + 3 {
      EarlyJanuary(e, s', y', s + i - s');
    } else {
      HitByYear(e, s', y', s + i - s');
    }
  }

  /** The days before year `part` of three. */
  function Before(k: int, part: int): int {
    if part == 0 then 0
    else if part == 1 then YearDays(k == 0)
    else if part == 2 then YearDays(k == 0) + YearDays(k == 1)
    else YearDays(k == 0) + YearDays(k == 1) + YearDays(k == 2)
  }

  lemma InOneOfThree(months: seq<int>, leapDay: bool, p: int, k: int, i: int, part: int)
    requires 0 <= part <= 3 && Before(k, part) <= i && (part < 3 ==> i < Before(k, part + 1))
    ensures HitInThree(months, leapDay, p, k, i) <==>
            part < 3 && HitInYear(months, leapDay, i % 7 == p, k == part, i - Before(k, part))
  {
  }

  lemma DenseFollows(months: seq<int>, leapDay: bool, p: int, k: int, i: int) returns (j: int)
    requires Dense(months, leapDay) && HitInThree(months, leapDay, p, k, i)
    requires 0 <= p <= 6 && 0 <= k <= 3 && 0 <= i < YearDays(k == 0)
    ensures i < j <= i + 732 && HitInThree(months, leapDay, p, k, j)
  {
    assert i < FirstYear(k);
    assert Followed(months, leapDay, p, k, i);
    j :| i < j <= i + 732 && HitInThree(months, leapDay, p, k, j);
  }

  lemma NextHit(e: CronExpr, n: int) returns (next: int)
    requires FifthDecides(e) && Dense(e.months, LeapDayListed(e)) && Hits(e, n)
    ensures n < next <= n + 732 && Hits(e, next)
  {
    var y := DateOf(n).year;
    var s := YearStartOf(n);
    var k := LeapOfThree(y);
    YearHolds(n, s);
    next := HitAgain(e, s, y, k, n - s);
  }

  lemma HitAgain(e: CronExpr, s: int, y: int, k: int, i: int) returns (next: int)
    requires FifthDecides(e) && Dense(e.months, LeapDayListed(e))
    requires DateOf(s) == Date(y, 1, 1) && LeapsAt(y, k) && 0 <= i < YearDays(k == 0) && Hits(e, s + i)
    ensures s + i < next <= s + i + 732 && Hits(e, next)
  {
    HitByWindow(e, s, y, k, i);
    var j := DenseFollows(e.months, LeapDayListed(e), Lead(s, e.dowNth.value.0), k, i);
    HitByWindow(e, s, y, k, j);
    next := s + j;
  }

  lemma YearHolds(n: int, s: int)
    requires DateOf(s) == Date(DateOf(n).year, 1, 1)
    requires n == s + DaysBefore(DateOf(n).year, DateOf(n).month) + DateOf(n).day - 1
    ensures 0 <= n - s < YearDays(IsLeapYear(DateOf(n).year))
  {
    var d := DateOf(n);
    DaysBeforeTable(d.year, d.month);
    MonthSpan(d.year, d.month);
    if d.month < 12 {
      MonthsApart(IsLeapYear(d.year), d.month, 12);
    }
  }

  /** Two days hit, at most 732 days apart, around any day. */
  lemma HitsAround(e: CronExpr, from: int) returns (a: int, b: int)
    requires FifthDecides(e) && Dense(e.months, LeapDayListed(e))
    ensures a <= from < b <= a + 732 && Hits(e, a) && Hits(e, b)
  {
    var m :| m in e.months && m != 2;
    a := FifthWithinSixYears(from - 2193, e.dowNth.value.0, m);
    HitsAre(e, a);
    a, b := HitsUpTo(e, a, from);
  }

  lemma {:induction false} HitsUpTo(e: CronExpr, start: int, from: int) returns (a: int, b: int)
    requires FifthDecides(e) && Dense(e.months, LeapDayListed(e)) && Hits(e, start) && start <= from
    ensures a <= from < b <= a + 732 && Hits(e, a) && Hits(e, b)
    decreases from - start
  {
    var next := NextHit(e, start);
    if next > from {
      a, b := start, next;
    } else {
      a, b := HitsUpTo(e, next, from);
    }
  }

  lemma HitMatches(e: CronExpr, n: int, t: int)
    requires e.years.None? && Hits(e, n) && DayOf(t) == n
    requires SecondOf(t) in e.seconds && MinuteOf(t) in e.minutes && HourOf(t) in e.hours
    ensures MatchesLocal(e, t)
  {
  }

  /** In second steps the search is long enough when the hits are dense. */
  lemma DenseFires(e: CronExpr, offset: int, after: int)
    requires FifthDecides(e) && BySeconds(e) && Dense(e.months, LeapDayListed(e))
    ensures !Exhausted(e, offset, after)
  {
    var local := LocalSeconds(offset, after);
    var a, b := HitsAround(e, DayOf(local));
    var today := TimeOnDay(a, e.hours[0], e.minutes[0], e.seconds[0]);
    var later := TimeOnDay(b, e.hours[0], e.minutes[0], e.seconds[0]);
    HitMatches(e, a, today);
    HitMatches(e, b, later);
    ClockAgrees(a, b, today, later);
    FireAt(e, offset, after, if local < today then today else later);
  }

  lemma ClockAgrees(a: int, b: int, s: int, t: int)
    requires DayOf(s) == a && DayOf(t) == b && HourOf(s) == HourOf(t) && MinuteOf(s) == MinuteOf(t)
             && SecondOf(s) == SecondOf(t)
    ensures t - s == (b - a) * SECONDS_PER_DAY
  {
    ClockParts(s);
    ClockParts(t);
  }

  lemma ClockParts(t: int)
    ensures t == SECONDS_PER_DAY * DayOf(t) + 3600 * HourOf(t) + 60 * MinuteOf(t) + SecondOf(t)
  {
    assert t == 60 * (t / 60) + t % 60;
    assert t / 60 == 60 * (t / 3600) + t / 60 % 60;
    assert t / 3600 == 24 * (t / 86400) + t / 3600 % 24;
  }

  // ---------------------------------------------------------------------------
  // and not for the others
  // ---------------------------------------------------------------------------

  lemma FourYears(s: int, y: int)
    requires DateOf(s) == Date(y, 1, 1) && 1904 <= y <= 2090
    ensures DateOf(s + 1461) == Date(y + 4, 1, 1)
  {
    var s1 := MonthOfYear(s, y, 13);
    var s2 := MonthOfYear(s1, y + 1, 13);
    var s3 := MonthOfYear(s2, y + 2, 13);
    var s4 := MonthOfYear(s3, y + 3, 13);
    OneLeapOfFour(y);
  }

  lemma OneLeapOfFour(y: int)
    requires 1904 <= y <= 2090
    ensures YearDays(IsLeapYear(y)) + YearDays(IsLeapYear(y + 1))
            + YearDays(IsLeapYear(y + 2)) + YearDays(IsLeapYear(y + 3)) == 1461
  {
    LeapByFour(y);
    LeapByFour(y + 1);
    LeapByFour(y + 2);
    LeapByFour(y + 3);
  }

  lemma LeapByFour(y: int)
    requires 1901 <= y <= 2099
    ensures IsLeapYear(y) <==> y % 4 == 0
  {
    if y % 100 == 0 {
      assert y / 100 == 20;
    }
  }

  lemma {:induction false} FourYearsTimes(s: int, y: int, t: nat)
    requires DateOf(s) == Date(y, 1, 1) && 1904 <= y <= 2060 && t <= 6
    ensures DateOf(s + 1461 * t) == Date(y + 4 * t, 1, 1)
  {
    if t > 0 {
      FourYearsTimes(s, y, t - 1);
      FourYears(s + 1461 * (t - 1), y + 4 * (t - 1));
    }
  }

  /** Every weekday begins a year of every kind. */
  lemma YearLike(j: int, k: int) returns (s: int, y: int)
    requires 0 <= j <= 6 && 0 <= k <= 3
    ensures DateOf(s) == Date(y, 1, 1) && Weekday(s) == j && LeapsAt(y, k)
  {
    var y0 := if k == 3 then 2029 else 2028 - k;
    var s0 := YearExists(y0);
    var t := (j - Weekday(s0)) * 3 % 7;
    FourYearsTimes(s0, y0, t);
    s, y := s0 + 1461 * t, y0 + 4 * t;
    WeekdayShift(s0, 1461 * t);
    FifteenIsOne(Weekday(s0), j, t);
    LeapEveryFour(y0, k, t);
  }

  lemma FifteenIsOne(w: int, j: int, t: int)
    requires 0 <= w <= 6 && 0 <= j <= 6 && t == (j - w) * 3 % 7
    ensures (w + 1461 * t) % 7 == j
  {
  }

  lemma LeapEveryFour(y: int, k: int, t: int)
    requires 0 <= k <= 3 && y == (if k == 3 then 2029 else 2028 - k) && 0 <= t <= 6
    ensures LeapsAt(y + 4 * t, k)
  {
  }

  /** Without density there is a start from which the search finds nothing: the end of a day that is
      hit and not followed. */
  lemma SparseExhausted(e: CronExpr, offset: int) returns (after: int)
    requires FifthDecides(e) && BySeconds(e) && !Dense(e.months, LeapDayListed(e))
    ensures Exhausted(e, offset, after)
  {
    var months, leapDay, w := e.months, LeapDayListed(e), e.dowNth.value.0;
    var p, k, i :| 0 <= p <= 6 && 0 <= k <= 3 && 0 <= i < FirstYear(k) && HitInThree(months, leapDay, p, k, i)
                   && !Followed(months, leapDay, p, k, i);
    var s, y := YearLike((w - p) % 7, k);
    LeadGiven(s, w, p);
    NoHitAfter(e, s, y, k, i);
    after := NothingFollows(e, offset, s + i);
  }

  lemma LeadGiven(s: int, w: int, p: int)
    requires 0 <= p <= 6 && 0 <= w <= 6 && Weekday(s) == (w - p) % 7
    ensures Lead(s, w) == p
  {
  }

  lemma NoHitAfter(e: CronExpr, s: int, y: int, k: int, i: int)
    requires FifthDecides(e) && DateOf(s) == Date(y, 1, 1) && LeapsAt(y, k) && 0 <= i < FirstYear(k)
    requires !Followed(e.months, LeapDayListed(e), Lead(s, e.dowNth.value.0), k, i)
    ensures forall d :: s + i < d <= s + i + 732 ==> !Hits(e, d)
  {
    forall d | s + i < d <= s + i + 732
      ensures !Hits(e, d)
    {
      HitByWindow(e, s, y, k, d - s);
    }
  }

  lemma NothingFollows(e: CronExpr, offset: int, n: int) returns (after: int)
    requires BySeconds(e) && forall d :: n < d <= n + 732 ==> !Hits(e, d)
    ensures Exhausted(e, offset, after)
  {
    var local := (n + 1) * SECONDS_PER_DAY - 1;
    after := (local - offset) * NANOS;
    assert LocalSeconds(offset, after) == local;
    forall x | after < x <= SearchEnd(e, offset, after) && x % NANOS == 0
      ensures !Fires(e, offset, x)
    {
      var t := LocalSeconds(offset, x);
      assert local < t <= local + 732 * SECONDS_PER_DAY;
      assert n < DayOf(t) <= n + 732;
      assert !Hits(e, DayOf(t));
    }
  }

  // ---------------------------------------------------------------------------
  // The exact condition
  // ---------------------------------------------------------------------------

  /** The days come up often enough for the search. */
  predicate Dependable(e: CronExpr) {
    || ReliableDays(e)
    || (AsksFifth(e) && LongMonthListed(e) && (BySeconds(e) ==> Dense(e.months, LeapDayListed(e))))
  }

  /** For every expression without a year field, the search finds a run from every instant if and
      only if its days are dependable. */
  lemma AlwaysFoundIffDependable(e: CronExpr, offset: int)
    requires WellFormed(e) && e.years.None?
    ensures (forall after :: !Exhausted(e, offset, after)) <==> Dependable(e)
  {
    if Dependable(e) {
      forall after
        ensures !Exhausted(e, offset, after)
      {
        if ReliableDays(e) {
          var x := FiresWithin397Days(e, offset, after);
        } else if BySeconds(e) {
          DenseFires(e, offset, after);
        } else {
          FifthFiresByMinutes(e, offset, after);
        }
      }
    } else if AsksFifth(e) && LongMonthListed(e) {
      var after := SparseExhausted(e, offset);
    } else {
      var after := UnreliableExhausted(e, offset);
    }
  }
}
