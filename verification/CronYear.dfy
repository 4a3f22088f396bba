/**
Cron expressions with a year field. The search is bounded by ticks, so a listed year may lie beyond
its reach: what is found depends on the listed years and on the years the ticks run through.
 */
module CronYear {
  import opened Core
  import opened Calendar
  import opened CronMatching
  import opened CronSearch
  import opened CronBound

  /** The year of a local time. */
  function LocalYear(t: int): int {
    DateOf(DayOf(t)).year
  }

  /** The years of the first and the last tick of a search. */
  function FirstYear(e: CronExpr, offset: int, after: int): int {
    LocalYear(FirstTick(e, LocalSeconds(offset, after)))
  }

  function LastYear(e: CronExpr, offset: int, after: int): int {
    LocalYear(LastTick(e, LocalSeconds(offset, after)))
  }

  lemma YearsAscend(a: int, b: int)
    requires a <= b
    ensures LocalYear(a) <= LocalYear(b)
  {
    if DayOf(a) < DayOf(b) {
      DatesAscend(DayOf(a), DayOf(b));
    }
  }

  /** What fires within the search fires between its first and its last tick. */
  lemma FiresAtTicks(e: CronExpr, offset: int, after: int, x: int)
    requires after < x <= SearchEnd(e, offset, after) && Fires(e, offset, x)
    ensures FirstYear(e, offset, after) <= LocalYear(LocalSeconds(offset, x)) <= LastYear(e, offset, after)
  {
    var local, t := LocalSeconds(offset, after), LocalSeconds(offset, x);
    assert local < t <= LastTick(e, local);
    if !BySeconds(e) {
      assert SecondOf(t) == 0;
    }
    YearsAscend(FirstTick(e, local), t);
    YearsAscend(t, LastTick(e, local));
  }

  /** A search whose ticks meet no listed year finds nothing. */
  lemma YearsMissed(e: CronExpr, offset: int, after: int)
    requires e.years.Some?
    requires forall y :: y in e.years.value ==>
               !(FirstYear(e, offset, after) <= y <= LastYear(e, offset, after))
    ensures Exhausted(e, offset, after)
  {
    forall x | after < x <= SearchEnd(e, offset, after)
      ensures !Fires(e, offset, x)
    {
      if Fires(e, offset, x) {
        FiresAtTicks(e, offset, after, x);
      }
    }
  }

  /** Reliable day fields match some day of a listed month in every year. */
  lemma DayOfYear(e: CronExpr, y: int) returns (n: int)
    requires WellFormed(e) && ReliableDays(e)
    ensures DateOf(n).year == y && DateOf(n).month in e.months && DayMatches(e, n)
  {
    var s := YearExists(y);
    var m, d := e.months[0], 0;
    if e.domRestricted && ReliableDom(e) {
      if !e.domLast && !e.domNearestWeekday.Some? {
        m, d :| m in e.months && d in e.daysOfMonth && d <= ShortestLength(m);
      }
      var k := MonthOfYear(s, y, m);
      n := DomMatchInMonth(e, k, d);
    } else {
      n := MonthOfYear(s, y, m);
      if e.dowRestricted && ReliableDow(e) {
        n := DowMatchInMonth(e, n);
      }
    }
  }

  /** So it matches at some time of every listed year. */
  lemma TimeOfYear(e: CronExpr, y: int) returns (t: int)
    requires WellFormed(e) && ReliableDays(e) && e.years.Some? && y in e.years.value && y >= 0
    ensures LocalYear(t) == y && MatchesLocal(e, t)
  {
    var n := DayOfYear(e, y);
    t := TimeOnDay(n, e.hours[0], e.minutes[0], e.seconds[0]);
  }

  /** A listed year all of whose days lie within the search is found. */
  lemma WholeYearFound(e: CronExpr, offset: int, after: int, y: int)
    requires WellFormed(e) && ReliableDays(e) && e.years.Some? && y in e.years.value && y >= 0
    requires FirstYear(e, offset, after) < y < LastYear(e, offset, after)
    ensures !Exhausted(e, offset, after)
  {
    var local := LocalSeconds(offset, after);
    var t := TimeOfYear(e, y);
    Between(FirstTick(e, local), t, LastTick(e, local));
    FireAt(e, offset, after, t);
  }

  lemma Between(a: int, t: int, b: int)
    requires LocalYear(a) < LocalYear(t) < LocalYear(b)
    ensures a < t < b
  {
    if t <= a {
      YearsAscend(t, a);
    }
    if b <= t {
      YearsAscend(b, t);
    }
  }

  /** Whatever the search finds, a listed year ahead does come. */
  lemma ComesAtLast(e: CronExpr, offset: int, after: int, y: int) returns (x: int)
    requires WellFormed(e) && ReliableDays(e) && e.years.Some? && y in e.years.value && y >= 0
    requires LocalYear(LocalSeconds(offset, after)) < y
    ensures after < x && Fires(e, offset, x)
  {
    var local := LocalSeconds(offset, after);
    var t := TimeOfYear(e, y);
    if t <= local {
      YearsAscend(t, local);
    }
    FireAt(e, offset, after, t);
    x := (t - offset) * NANOS;
  }

  // ---------------------------------------------------------------------------
  // Restricted by year alone
  // ---------------------------------------------------------------------------

  ghost predicate Full(values: seq<int>, lo: int, hi: int) {
    forall v :: lo <= v <= hi ==> v in values
  }

  /** Only the year field says anything, apart from the seconds, which may be all or just 0. */
  ghost predicate ByYearAlone(e: CronExpr) {
    && e.years.Some?
    && (e.seconds == [0] || Full(e.seconds, 0, 59))
    && Full(e.minutes, 0, 59) && Full(e.hours, 0, 23) && Full(e.months, 1, 12)
    && !e.domRestricted && !e.dowRestricted
  }

  lemma MatchesInYear(e: CronExpr, t: int)
    requires ByYearAlone(e) && LocalYear(t) in e.years.value && LocalYear(t) >= 0
    requires !BySeconds(e) ==> t % 60 == 0
    ensures MatchesLocal(e, t)
  {
  }

  lemma YearBegins(y: int) returns (t: int)
    ensures LocalYear(t) == y && t % 60 == 0 && forall u :: u < t ==> LocalYear(u) < y
  {
    var s := YearExists(y);
    t := s * SECONDS_PER_DAY;
    assert DayOf(t) == s;
    forall u | u < t
      ensures LocalYear(u) < y
    {
      DatesAscend(DayOf(u), s);
    }
  }

  /** Then a run is found exactly when the ticks meet a listed year. */
  lemma ByYearFoundIff(e: CronExpr, offset: int, after: int)
    requires ByYearAlone(e) && forall y :: y in e.years.value ==> y >= 0
    ensures !Exhausted(e, offset, after) <==>
            exists y :: y in e.years.value && FirstYear(e, offset, after) <= y <= LastYear(e, offset, after)
  {
    if exists y :: y in e.years.value && FirstYear(e, offset, after) <= y <= LastYear(e, offset, after) {
      var y :| y in e.years.value && FirstYear(e, offset, after) <= y <= LastYear(e, offset, after);
      MetIsFound(e, offset, after, y);
    } else {
      YearsMissed(e, offset, after);
    }
  }

  lemma MetIsFound(e: CronExpr, offset: int, after: int, y: int)
    requires ByYearAlone(e) && y in e.years.value && y >= 0
    requires FirstYear(e, offset, after) <= y <= LastYear(e, offset, after)
    ensures !Exhausted(e, offset, after)
  {
    var local := LocalSeconds(offset, after);
    if LocalYear(FirstTick(e, local)) == y {
      TickIsFound(e, offset, after, FirstTick(e, local));
    } else {
      var begin := YearBegins(y);
      if begin <= FirstTick(e, local) {
        YearsAscend(begin, FirstTick(e, local));
      }
      TickIsFound(e, offset, after, begin);
    }
  }

  lemma TickIsFound(e: CronExpr, offset: int, after: int, t: int)
    requires ByYearAlone(e) && LocalYear(t) in e.years.value && LocalYear(t) >= 0
    requires var local := LocalSeconds(offset, after); FirstTick(e, local) <= t <= LastTick(e, local)
    requires !BySeconds(e) ==> t % 60 == 0
    ensures !Exhausted(e, offset, after)
  {
    MatchesInYear(e, t);
    FireAt(e, offset, after, t);
  }

  // ---------------------------------------------------------------------------
  // Too far ahead
  // ---------------------------------------------------------------------------

  /** No search runs through more than seven years. */
  lemma SevenYears(e: CronExpr, offset: int, after: int)
    ensures LastYear(e, offset, after) <= LocalYear(LocalSeconds(offset, after)) + 7
  {
    var local := LocalSeconds(offset, after);
    var n, last := DayOf(local), DayOf(LastTick(e, local));
    var y := DateOf(n).year;
    var s := YearStartOf(n);
    DaysBeforeTable(y, DateOf(n).month);
    YearAfter(s, y, 8);
    var t :| s + 365 * 8 <= t && DateOf(t) == Date(y + 8, 1, 1);
    assert last <= n + 2196;
    DatesAscend(last, t);
  }

  /** A year more than seven ahead is never found, though it comes. */
  lemma FarYearMissed(e: CronExpr, offset: int, after: int) returns (x: int)
    requires WellFormed(e) && ReliableDays(e) && e.years.Some? && e.years.value != []
    requires forall y :: y in e.years.value ==> y >= 0 && y > LocalYear(LocalSeconds(offset, after)) + 7
    ensures Exhausted(e, offset, after) && after < x && Fires(e, offset, x)
  {
    SevenYears(e, offset, after);
    YearsMissed(e, offset, after);
    x := ComesAtLast(e, offset, after, e.years.value[0]);
  }

  /** The last year the grammar knows is out of reach until 2092. */
  lemma Year2099Missed(e: CronExpr, offset: int, after: int) returns (x: int)
    requires WellFormed(e) && ReliableDays(e) && e.years == Some([2099])
    requires LocalYear(LocalSeconds(offset, after)) <= 2091
    ensures Exhausted(e, offset, after) && after < x && Fires(e, offset, x)
  {
    x := FarYearMissed(e, offset, after);
  }
}
