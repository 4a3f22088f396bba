/**
Parsed cron expressions and the local-time test they are matched with: the plain fields, the
`L`, `W` and `#` day rules, and the day-of-month / day-of-week combination.
 */
module CronMatching {
  import opened Core
  import opened Calendar

  datatype CronExpr = CronExpr(
    seconds: seq<int>,
    minutes: seq<int>,
    hours: seq<int>,
    daysOfMonth: seq<int>,
    months: seq<int>,
    daysOfWeek: seq<int>,
    years: Option<seq<int>>,
    domRestricted: bool,
    dowRestricted: bool,
    domLast: bool,
    domNearestWeekday: Option<int>,
    dowLast: Option<int>,
    dowNth: Option<(int, int)>)

  const SECONDS_PER_DAY := 86400

  // Clock fields of a local time given in whole seconds.
  function DayOf(t: int): int { t / 86400 }
  function HourOf(t: int): int { t / 3600 % 24 }
  function MinuteOf(t: int): int { t / 60 % 60 }
  function SecondOf(t: int): int { t % 60 }

  /** The last day of a month, found as the day before the next month starts. */
  function LastDayOfMonth(y: int, m: int): int
    requires 1 <= m <= 12
  {
    Predecessor(NextMonthStart(y, m)).day
  }

  /** The day number of the first of day `n`'s month. */
  function FirstOfMonth(n: int): int {
    n - DateOf(n).day + 1
  }

  /** Weekday of day `d` of a month whose first day is day number `first`. */
  function WeekdayInMonth(first: int, d: int): (w: int)
    ensures 0 <= w <= 6
  {
    Weekday(first + d - 1)
  }

  /** The day of the month a `<target>W` rule resolves to. */
  function ResolvedWeekday(first: int, last: int, target: int): int {
    var t := Min(target, last);
    var weekday := WeekdayInMonth(first, t);
    if weekday == 6 then (if t > 1 then t - 1 else t + 2)
    else if weekday == 0 then (if t < last then t + 1 else t - 2)
    else t
  }

  /** A target of zero names no date and is never matched. */
  predicate IsNearestWeekday(n: int, target: int) {
    var date := DateOf(n);
    target > 0
    && date.day == ResolvedWeekday(FirstOfMonth(n), LastDayOfMonth(date.year, date.month), target)
  }

  predicate DomMatches(e: CronExpr, n: int) {
    var date := DateOf(n);
    || (e.domLast && date.day == LastDayOfMonth(date.year, date.month))
    || (e.domNearestWeekday.Some? && IsNearestWeekday(n, e.domNearestWeekday.value))
    || date.day in e.daysOfMonth
  }

  predicate DowMatches(e: CronExpr, n: int) {
    var w := Weekday(n);
    || (e.dowLast.Some? && w == e.dowLast.value && DateOf(n + 7).month != DateOf(n).month)
    || (e.dowNth.Some? && w == e.dowNth.value.0 && (DateOf(n).day - 1) / 7 + 1 == e.dowNth.value.1)
    || w in e.daysOfWeek
  }

  /** Both day fields restricted: either suffices. One restricted: that one decides. */
  predicate DayMatches(e: CronExpr, n: int) {
    if e.domRestricted && e.dowRestricted then DomMatches(e, n) || DowMatches(e, n)
    else if e.domRestricted then DomMatches(e, n)
    else if e.dowRestricted then DowMatches(e, n)
    else true
  }

  predicate MatchesLocal(e: CronExpr, t: int) {
    var date := DateOf(DayOf(t));
    && SecondOf(t) in e.seconds
    && MinuteOf(t) in e.minutes
    && HourOf(t) in e.hours
    && date.month in e.months
    && (e.years.Some? ==> date.year >= 0 && date.year in e.years.value)
    && DayMatches(e, DayOf(t))
  }

  // ---------------------------------------------------------------------------
  // Calendar laws
  // ---------------------------------------------------------------------------

  lemma LastDayIsMonthLength(y: int, m: int)
    requires 1 <= m <= 12
    ensures LastDayOfMonth(y, m) == MonthLength(y, m)
  {
  }

  lemma WeekdayShift(n: int, k: int)
    ensures Weekday(n + k) == (Weekday(n) + k) % 7
  {
  }

  /** Day `d` of day `n`'s month. */
  lemma DayInMonth(n: int, d: int) returns (x: int)
    requires 1 <= d <= MonthLength(DateOf(n).year, DateOf(n).month)
    ensures x == FirstOfMonth(n) + d - 1
    ensures DateOf(x) == DateOf(n).(day := d)
    ensures FirstOfMonth(x) == FirstOfMonth(n)
  {
    SameMonth(n, d - DateOf(n).day);
    x := n + (d - DateOf(n).day);
  }

  ghost predicate IsNearestWorkday(first: int, len: int, target: int, r: int) {
    && 1 <= WeekdayInMonth(first, r) <= 5
    && forall d :: 1 <= d <= len && 1 <= WeekdayInMonth(first, d) <= 5 ==> Abs(r - target) <= Abs(d - target)
  }

  /** `<target>W` resolves to the workday of the month nearest to the target (clamped to the
      month's last day), and there is only one such workday. */
  lemma ResolvedWeekdayIsNearest(first: int, len: int, target: int)
    requires 28 <= len && target > 0
    ensures 1 <= ResolvedWeekday(first, len, target) <= len
    ensures forall r :: 1 <= r <= len ==>
              (r == ResolvedWeekday(first, len, target) <==> IsNearestWorkday(first, len, Min(target, len), r))
  {
    var t := Min(target, len);
    var r := ResolvedWeekday(first, len, target);
    WeekdayShift(first + t - 1, r - t);
    forall d | 1 <= d <= len && d != r && 1 <= WeekdayInMonth(first, d) <= 5
      ensures Abs(r - t) < Abs(d - t)
    {
      WeekdayShift(first + t - 1, d - t);
    }
  }

  /** A day matches `<target>W` exactly when it is the workday of its month nearest to the target. */
  lemma NearestWeekdayLaw(n: int, target: int)
    requires target > 0
    ensures var date := DateOf(n);
            var len := MonthLength(date.year, date.month);
            IsNearestWeekday(n, target) <==>
            IsNearestWorkday(FirstOfMonth(n), len, Min(target, len), date.day)
  {
    var date := DateOf(n);
    LastDayIsMonthLength(date.year, date.month);
    ResolvedWeekdayIsNearest(FirstOfMonth(n), MonthLength(date.year, date.month), target);
  }

  /** How many of the first `d` days of the month starting at `first` fall on weekday `w`. */
  function CountWeekday(first: int, d: nat, w: int): nat {
    if d == 0 then 0
    else CountWeekday(first, d - 1, w) + (if WeekdayInMonth(first, d) == w then 1 else 0)
  }

  /** In the first week a weekday comes up once, on the day its distance from the first says. */
  lemma {:induction false} FirstWeek(first: int, w: int, k: nat)
    requires 0 <= w <= 6 && k <= 7
    ensures CountWeekday(first, k, w) == if (w - Weekday(first)) % 7 < k then 1 else 0
  {
    if k > 0 {
      FirstWeek(first, w, k - 1);
      WeekdayShift(first, k - 1);
      ComesUpOnce(Weekday(first), w, k - 1);
    }
  }

  lemma ComesUpOnce(a: int, w: int, k: int)
    requires 0 <= a <= 6 && 0 <= w <= 6 && 0 <= k <= 6
    ensures (a + k) % 7 == w <==> (w - a) % 7 == k
  {
  }

  /** Seven more days hold each weekday once more. */
  lemma {:induction false} OneMoreWeek(first: int, d: nat, w: int)
    requires 0 <= w <= 6
    ensures CountWeekday(first, d + 7, w) == CountWeekday(first, d, w) + 1
  {
    if d == 0 {
      FirstWeek(first, w, 7);
    } else {
      OneMoreWeek(first, d - 1, w);
      WeekdayShift(first + d - 1, 7);
    }
  }

  lemma {:induction false} OccurrenceCount(first: int, d: int)
    requires d >= 1
    ensures (d - 1) / 7 + 1 == CountWeekday(first, d, WeekdayInMonth(first, d))
  {
    if d > 7 {
      OccurrenceCount(first, d - 7);
      WeekdayShift(first + d - 8, 7);
      OneMoreWeek(first, d - 7, WeekdayInMonth(first, d));
    } else {
      FirstWeek(first, WeekdayInMonth(first, d), d);
      WeekdayShift(first, d - 1);
    }
  }

  /** `(day - 1) / 7 + 1` is the number of times the weekday of day `n` has come up in its month. */
  lemma OccurrenceIndexLaw(n: int)
    ensures (DateOf(n).day - 1) / 7 + 1 == CountWeekday(FirstOfMonth(n), DateOf(n).day, Weekday(n))
  {
    OccurrenceCount(FirstOfMonth(n), DateOf(n).day);
  }

  ghost predicate NoLaterOccurrence(first: int, len: int, day: int) {
    forall d :: day < d <= len ==> WeekdayInMonth(first, d) != WeekdayInMonth(first, day)
  }

  lemma LaterOccurrence(first: int, len: int, day: int)
    ensures NoLaterOccurrence(first, len, day) <==> day + 7 > len
  {
    WeekdayShift(first + day - 1, 7);
    assert WeekdayInMonth(first, day + 7) == WeekdayInMonth(first, day);
    forall d | day < d < day + 7
      ensures WeekdayInMonth(first, d) != WeekdayInMonth(first, day)
    {
      WeekdayShift(first + day - 1, d - day);
    }
  }

  /** A week later is another month exactly on the last occurrence of a weekday in its month. */
  lemma LastOccurrenceLaw(n: int)
    ensures var date := DateOf(n);
            DateOf(n + 7).month != date.month <==>
            NoLaterOccurrence(FirstOfMonth(n), MonthLength(date.year, date.month), date.day)
  {
    var date := DateOf(n);
    WeekLater(n);
    LaterOccurrence(FirstOfMonth(n), MonthLength(date.year, date.month), date.day);
  }

  lemma WeekLater(n: int)
    ensures var date := DateOf(n);
            DateOf(n + 7).month != date.month <==> date.day + 7 > MonthLength(date.year, date.month)
  {
    var date := DateOf(n);
    var len := MonthLength(date.year, date.month);
    if date.day + 7 <= len {
      SameMonth(n, 7);
    } else {
      NextMonthDay(n);
      var next := n + len - date.day + 1;
      SameMonth(next, date.day + 6 - len);
    }
  }

  // ---------------------------------------------------------------------------
  // What a match says of the clock and the calendar
  // ---------------------------------------------------------------------------

  /** The time of day shows a listed hour, minute and second. */
  ghost predicate ReadsClock(e: CronExpr, t: int) {
    exists h, m, s :: h in e.hours && m in e.minutes && s in e.seconds
                      && 0 <= h <= 23 && 0 <= m <= 59 && 0 <= s <= 59 && t % 86400 == 3600 * h + 60 * m + s
  }

  /** Tomorrow is a first, or it is the nearest workday, or the day is listed. */
  ghost predicate DomRule(e: CronExpr, n: int) {
    var date := DateOf(n);
    var len := MonthLength(date.year, date.month);
    || (e.domLast && DateOf(n + 1).day == 1)
    || (e.domNearestWeekday.Some? && e.domNearestWeekday.value > 0
        && IsNearestWorkday(FirstOfMonth(n), len, Min(e.domNearestWeekday.value, len), date.day))
    || date.day in e.daysOfMonth
  }

  /** It is the month's last such weekday, or its n-th, or the weekday is listed. */
  ghost predicate DowRule(e: CronExpr, n: int) {
    var date := DateOf(n);
    || (e.dowLast == Some(Weekday(n))
        && NoLaterOccurrence(FirstOfMonth(n), MonthLength(date.year, date.month), date.day))
    || e.dowNth == Some((Weekday(n), CountWeekday(FirstOfMonth(n), date.day, Weekday(n)) as int))
    || Weekday(n) in e.daysOfWeek
  }

  ghost predicate OnDate(e: CronExpr, n: int) {
    && DateOf(n).month in e.months
    && (e.years.Some? ==> DateOf(n).year >= 0 && DateOf(n).year in e.years.value)
    && (e.domRestricted || e.dowRestricted ==> (e.domRestricted && DomRule(e, n)) || (e.dowRestricted && DowRule(e, n)))
  }

  lemma LastDayExactly(n: int)
    ensures var date := DateOf(n);
            date.day == LastDayOfMonth(date.year, date.month) <==> DateOf(n + 1).day == 1
  {
    LastDayIsMonthLength(DateOf(n).year, DateOf(n).month);
    DateAdvances(n);
  }

  lemma DomExactly(e: CronExpr, n: int)
    ensures DomMatches(e, n) <==> DomRule(e, n)
  {
    LastDayExactly(n);
    if e.domNearestWeekday.Some? && e.domNearestWeekday.value > 0 {
      NearestWeekdayLaw(n, e.domNearestWeekday.value);
    }
  }

  lemma DowExactly(e: CronExpr, n: int)
    ensures DowMatches(e, n) <==> DowRule(e, n)
  {
    LastOccurrenceLaw(n);
    OccurrenceIndexLaw(n);
  }

  lemma ClockExactly(e: CronExpr, t: int)
    ensures ReadsClock(e, t) <==> HourOf(t) in e.hours && MinuteOf(t) in e.minutes && SecondOf(t) in e.seconds
  {
    TimeOfDay(t);
    if ReadsClock(e, t) {
      var h, m, s :| h in e.hours && m in e.minutes && s in e.seconds
                     && 0 <= h <= 23 && 0 <= m <= 59 && 0 <= s <= 59 && t % 86400 == 3600 * h + 60 * m + s;
      SameClock(h, m, s, HourOf(t), MinuteOf(t), SecondOf(t));
    }
  }

  lemma TimeOfDay(t: int)
    ensures t % 86400 == 3600 * HourOf(t) + 60 * MinuteOf(t) + SecondOf(t)
  {
    assert t == 60 * (t / 60) + t % 60;
    assert t / 60 == 60 * (t / 3600) + t / 60 % 60;
    assert t / 3600 == 24 * (t / 86400) + t / 3600 % 24;
  }

  lemma SameClock(h: int, m: int, s: int, h': int, m': int, s': int)
    requires 0 <= m <= 59 && 0 <= s <= 59 && 0 <= m' <= 59 && 0 <= s' <= 59
    requires 3600 * h + 60 * m + s == 3600 * h' + 60 * m' + s'
    ensures h == h' && m == m' && s == s'
  {
  }

  /** A local time matches exactly when the clock shows a listed time of day and the day is one of the
      expression's days. */
  lemma MatchesExactly(e: CronExpr, t: int)
    ensures MatchesLocal(e, t) <==> ReadsClock(e, t) && OnDate(e, t / 86400)
  {
    ClockExactly(e, t);
    DomExactly(e, t / 86400);
    DowExactly(e, t / 86400);
  }
}
