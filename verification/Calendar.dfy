/**
The civil calendar the cron matcher reads its dates from: day numbers counted from
1970-01-01, the proleptic Gregorian date of each day number, and its weekday.
 */
module Calendar {

  datatype Date = Date(year: int, month: int, day: int)

  predicate IsLeapYear(y: int) {
    y % 4 == 0 && (y % 100 != 0 || y % 400 == 0)
  }

  function MonthLength(y: int, m: int): (len: int)
    requires 1 <= m <= 12
    ensures 28 <= len <= 31
  {
    if m == 2 then (if IsLeapYear(y) then 29 else 28)
    else if m == 4 || m == 6 || m == 9 || m == 11 then 30
    else 31
  }

  predicate ValidDate(d: Date) {
    1 <= d.month <= 12 && 1 <= d.day <= MonthLength(d.year, d.month)
  }

  /** The first day of the month after month `m` of year `y`. */
  function NextMonthStart(y: int, m: int): (d: Date)
    requires 1 <= m <= 12
    ensures ValidDate(d) && d.month != m
  {
    if m == 12 then Date(y + 1, 1, 1) else Date(y, m + 1, 1)
  }

  function Successor(d: Date): (r: Date)
    requires ValidDate(d)
    ensures ValidDate(r)
  {
    if d.day < MonthLength(d.year, d.month) then d.(day := d.day + 1)
    else NextMonthStart(d.year, d.month)
  }

  function Predecessor(d: Date): (r: Date)
    requires ValidDate(d)
    ensures ValidDate(r) && Successor(r) == d
  {
    if d.day > 1 then d.(day := d.day - 1)
    else if d.month == 1 then Date(d.year - 1, 12, 31)
    else Date(d.year, d.month - 1, MonthLength(d.year, d.month - 1))
  }

  /** The date of day number `n`; day 0 is 1970-01-01 and each day is followed by its successor. */
  function DateOf(n: int): (d: Date)
    ensures ValidDate(d)
    decreases if n < 0 then -n else n
  {
    if n == 0 then Date(1970, 1, 1)
    else if n > 0 then Successor(DateOf(n - 1))
    else Predecessor(DateOf(n + 1))
  }

  /** Weekday of day number `n`, Sunday = 0; 1970-01-01 was a Thursday. */
  function Weekday(n: int): (w: int)
    ensures 0 <= w <= 6
  {
    (n + 4) % 7
  }

  lemma DateAdvances(n: int)
    ensures DateOf(n + 1) == Successor(DateOf(n))
  {
  }

  ghost predicate Earlier(a: Date, b: Date) {
    a.year < b.year
    || (a.year == b.year && a.month < b.month)
    || (a.year == b.year && a.month == b.month && a.day < b.day)
  }

  /** Dates come in calendar order, so no date is the date of two days. */
  lemma {:induction false} DatesAscend(a: int, b: int)
    requires a < b
    ensures Earlier(DateOf(a), DateOf(b))
    decreases b - a
  {
    DateAdvances(b - 1);
    if a < b - 1 {
      DatesAscend(a, b - 1);
    }
  }

  /** Within one month, day numbers and days of the month move together. */
  lemma {:induction false} SameMonth(n: int, k: int)
    requires 1 <= DateOf(n).day + k <= MonthLength(DateOf(n).year, DateOf(n).month)
    ensures DateOf(n + k) == DateOf(n).(day := DateOf(n).day + k)
    decreases if k < 0 then -k else k
  {
    if k > 0 {
      SameMonth(n, k - 1);
      DateAdvances(n + k - 1);
    } else if k < 0 {
      SameMonth(n, k + 1);
      DateAdvances(n + k);
      assert Successor(DateOf(n + k)) == DateOf(n + k + 1);
    }
  }

  /** The month after day `n`'s month starts right after its last day. */
  lemma NextMonthDay(n: int)
    ensures var d := DateOf(n);
            DateOf(n + MonthLength(d.year, d.month) - d.day + 1) == NextMonthStart(d.year, d.month)
  {
    var d := DateOf(n);
    var last := MonthLength(d.year, d.month) - d.day;
    SameMonth(n, last);
    DateAdvances(n + last);
  }

  /** Days of year `y` before the first of month `m`; month 13 stands for the end of the year. */
  function DaysBefore(y: int, m: int): int
    requires 1 <= m <= 13
  {
    if m == 1 then 0 else DaysBefore(y, m - 1) + MonthLength(y, m - 1)
  }

  function CumulativeDays(leap: bool, m: int): int
    requires 1 <= m <= 13
  {
    [0, 31, 59, 90, 120, 151, 181, 212, 243, 273, 304, 334, 365][m - 1] + (if m > 2 && leap then 1 else 0)
  }

  lemma DaysBeforeTable(y: int, m: int)
    requires 1 <= m <= 13
    ensures DaysBefore(y, m) == CumulativeDays(IsLeapYear(y), m)
  {
    if m > 1 {
      DaysBeforeTable(y, m - 1);
    }
  }

  function MonthStart(y: int, m: int): Date
    requires 1 <= m <= 13
  {
    if m == 13 then Date(y + 1, 1, 1) else Date(y, m, 1)
  }

  /** From the first day of a year, every month start (and the next year's) is `DaysBefore` away. */
  lemma {:induction false} MonthStartDay(n: int, y: int, m: int) returns (k: int)
    requires 1 <= m <= 13 && DateOf(n) == Date(y, 1, 1)
    ensures k == n + DaysBefore(y, m) && DateOf(k) == MonthStart(y, m)
    decreases m
  {
    if m == 1 {
      k := n;
    } else {
      var j := MonthStartDay(n, y, m - 1);
      k := OneMonthOn(j, y, m - 1);
    }
  }

  lemma OneMonthOn(j: int, y: int, m: int) returns (k: int)
    requires 1 <= m <= 12 && DateOf(j) == MonthStart(y, m)
    ensures k == j + MonthLength(y, m) && DateOf(k) == MonthStart(y, m + 1)
  {
    NextMonthFrom(j, y, m);
    k := j + MonthLength(y, m);
  }

  lemma NextMonthFrom(n: int, y: int, m: int)
    requires 1 <= m <= 12 && DateOf(n) == Date(y, m, 1)
    ensures DateOf(n + MonthLength(y, m)) == MonthStart(y, m + 1)
  {
    NextMonthDay(n);
    assert NextMonthStart(y, m) == MonthStart(y, m + 1);
  }

  /** The day number of the first of January of day `n`'s year. */
  lemma YearStartOf(n: int) returns (s: int)
    ensures DateOf(s) == Date(DateOf(n).year, 1, 1)
    ensures n == s + DaysBefore(DateOf(n).year, DateOf(n).month) + DateOf(n).day - 1
  {
    var first := MonthBegins(n);
    s := JanuaryFirst(first, DateOf(n).year, DateOf(n).month);
  }

  lemma MonthBegins(n: int) returns (first: int)
    ensures first == n - DateOf(n).day + 1 && DateOf(first) == DateOf(n).(day := 1)
  {
    SameMonth(n, 1 - DateOf(n).day);
    first := n - DateOf(n).day + 1;
  }

  lemma {:induction false} JanuaryFirst(n: int, y: int, m: int) returns (s: int)
    requires 1 <= m <= 12 && DateOf(n) == Date(y, m, 1)
    ensures DateOf(s) == Date(y, 1, 1) && n == s + DaysBefore(y, m)
    decreases m
  {
    if m == 1 {
      s := n;
    } else {
      DateAdvances(n - 1);
      assert Successor(DateOf(n - 1)) == Date(y, m, 1);
      var len := MonthLength(y, m - 1);
      assert DateOf(n - 1) == Date(y, m - 1, len);
      SameMonth(n - 1, 1 - len);
      s := JanuaryFirst(n - len, y, m - 1);
    }
  }

  /** Every year has a first of January among the day numbers. */
  lemma {:induction false} YearExists(y: int) returns (s: int)
    ensures DateOf(s) == Date(y, 1, 1)
    decreases if y < 1970 then 1970 - y else y - 1970
  {
    if y == 1970 {
      s := 0;
    } else if y > 1970 {
      var p := YearExists(y - 1);
      s := MonthStartDay(p, y - 1, 13);
    } else {
      var p := YearExists(y + 1);
      DateAdvances(p - 1);
      assert DateOf(p - 1) == Date(y, 12, 31);
      s := YearStartOf(p - 1);
    }
  }

  /** Every valid date is the date of some day number. */
  lemma DateExists(d: Date) returns (n: int)
    requires ValidDate(d)
    ensures DateOf(n) == d
  {
    var s := YearExists(d.year);
    var first := MonthOfYear(s, d.year, d.month);
    SameMonth(first, d.day - 1);
    n := first + d.day - 1;
  }

  /** `MonthStartDay` with the distance spelled out. */
  lemma MonthOfYear(s: int, y: int, m: int) returns (k: int)
    requires 1 <= m <= 13 && DateOf(s) == Date(y, 1, 1)
    ensures DateOf(k) == MonthStart(y, m)
    ensures k == s + CumulativeDays(IsLeapYear(y), m)
  {
    DaysBeforeTable(y, m);
    k := MonthStartDay(s, y, m);
  }

  /** The days from a date to the next first of month `m`. */
  lemma MonthGap(d: Date, m: int)
    requires ValidDate(d) && 1 <= m <= 12
    ensures var here := CumulativeDays(IsLeapYear(d.year), d.month) + d.day - 1;
            if m > d.month then 0 < CumulativeDays(IsLeapYear(d.year), m) - here <= 366
            else 0 < CumulativeDays(IsLeapYear(d.year), 13) + CumulativeDays(IsLeapYear(d.year + 1), m) - here <= 366
  {
  }

  /** A first of month `m` comes within 366 days after any day. */
  lemma MonthComesWithinAYear(n: int, m: int) returns (k: int)
    requires 1 <= m <= 12
    ensures n < k <= n + 366
    ensures DateOf(k).month == m && DateOf(k).day == 1
  {
    var d := DateOf(n);
    var s := YearStartOf(n);
    DaysBeforeTable(d.year, d.month);
    MonthGap(d, m);
    if m > d.month {
      k := MonthOfYear(s, d.year, m);
    } else {
      var t := MonthOfYear(s, d.year, 13);
      k := MonthOfYear(t, d.year + 1, m);
    }
  }

  // ---------------------------------------------------------------------------
  // The weekday of a date
  // ---------------------------------------------------------------------------

  /** Sakamoto's formula: the weekday from the date alone, January and February counted with the year
      before. */
  function WeekdayOfDate(d: Date): int
    requires ValidDate(d)
  {
    Total(d) % 7
  }

  function Total(d: Date): int
    requires ValidDate(d)
  {
    var y := if d.month < 3 then d.year - 1 else d.year;
    y + Leaps(y) + MonthShift(d.month) + d.day
  }

  function MonthShift(m: int): int
    requires 1 <= m <= 12
  {
    [0, 3, 2, 5, 0, 3, 5, 1, 4, 6, 2, 4][m - 1]
  }

  /** Leap days up to the end of year `y`. */
  function Leaps(y: int): int {
    y / 4 - y / 100 + y / 400
  }

  lemma QuotientStep(y: int, k: int)
    requires k == 4 || k == 100 || k == 400
    ensures y / k == (y - 1) / k + (if y % k == 0 then 1 else 0)
  {
  }

  lemma Multiples(y: int)
    ensures (y % 400 == 0 ==> y % 100 == 0) && (y % 100 == 0 ==> y % 4 == 0)
  {
    if y % 100 == 0 {
      assert y == 4 * (25 * (y / 100));
    }
    if y % 400 == 0 {
      assert y == 100 * (4 * (y / 400));
    }
  }

  lemma OneMoreLeap(y: int)
    ensures Leaps(y) == Leaps(y - 1) + (if IsLeapYear(y) then 1 else 0)
  {
    QuotientStep(y, 4);
    QuotientStep(y, 100);
    QuotientStep(y, 400);
    Multiples(y);
  }

  /** How many weeks the total falls from one month to the next. */
  function WeeksOver(m: int): int {
    if m == 4 || m == 7 || m == 10 || m == 12 then 5 else 4
  }

  lemma MonthTurn(y: int, m: int)
    requires 1 <= m <= 12
    ensures Total(NextMonthStart(y, m)) == Total(Date(y, m, MonthLength(y, m))) + 1 - 7 * WeeksOver(m)
  {
    if m == 2 {
      OneMoreLeap(y);
    } else if m != 12 {
      ShiftTurn(m);
    }
  }

  lemma ShiftTurn(m: int)
    requires 1 <= m <= 11 && m != 2
    ensures MonthShift(m + 1) == MonthShift(m) + MonthLength(1970, m) - 7 * WeeksOver(m)
  {
  }

  lemma SevenFewer(a: int, b: int, weeks: int)
    requires b == a + 1 - 7 * weeks
    ensures b % 7 == (a % 7 + 1) % 7
  {
  }

  lemma NextDayOfWeek(d: Date)
    requires ValidDate(d)
    ensures WeekdayOfDate(Successor(d)) == (WeekdayOfDate(d) + 1) % 7
  {
    if d.day < MonthLength(d.year, d.month) {
      SevenFewer(Total(d), Total(Successor(d)), 0);
    } else {
      MonthTurn(d.year, d.month);
      SevenFewer(Total(d), Total(Successor(d)), WeeksOver(d.month));
    }
  }

  lemma WeekdayStep(n: int)
    ensures Weekday(n + 1) == (Weekday(n) + 1) % 7
  {
  }

  lemma FirstWeekday()
    ensures WeekdayOfDate(Date(1970, 1, 1)) == 4
  {
    assert Leaps(1969) == 492 - 19 + 4;
  }

  lemma SameAdvance(a: int, b: int)
    requires 0 <= a < 7 && 0 <= b < 7
    ensures (a + 1) % 7 == (b + 1) % 7 <==> a == b
  {
  }

  lemma WeekdayAdvances(n: int, d: Date)
    requires ValidDate(d)
    ensures Weekday(n + 1) == WeekdayOfDate(Successor(d)) <==> Weekday(n) == WeekdayOfDate(d)
  {
    WeekdayStep(n);
    NextDayOfWeek(d);
    SameAdvance(Weekday(n), WeekdayOfDate(d));
  }

  /** The weekday of every day is the one its date has. */
  lemma {:induction false} WeekdayByDate(n: int)
    ensures Weekday(n) == WeekdayOfDate(DateOf(n))
    decreases if n < 0 then -n else n
  {
    if n == 0 {
      FirstWeekday();
    } else if n > 0 {
      WeekdayByDate(n - 1);
      DateAdvances(n - 1);
      WeekdayAdvances(n - 1, DateOf(n - 1));
    } else {
      WeekdayByDate(n + 1);
      DateAdvances(n);
      WeekdayAdvances(n, DateOf(n));
    }
  }
}
