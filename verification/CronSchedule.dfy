/** Schedule strings: the choice between one-shot timestamps and cron expressions. */
module CronSchedule {
  import opened Core
  import opened Text
  import opened Regex
  import opened OneShot
  import opened CronMatching
  import opened CronSearch
  import opened CronFifth
  import opened CronParse
  import CronPrint

  datatype ParsedSchedule = Date(instant: int) | Cron(expr: CronExpr)

  /** The two grammars never accept the same string. */
  lemma GrammarsDisjoint(s: string)
    requires Matches(Pattern(), s)
    ensures ParseExpr(s).None?
  {
    OneShotIsShort(s);
  }

  /** The meaning of a schedule string. `instantOf` reads a timestamp that fits the pattern. */
  ghost function ScheduleOf(schedule: string, instantOf: string -> Option<int>): Result<ParsedSchedule, string> {
    var normalized := Trim(schedule);
    if Matches(Pattern(), normalized) then
      match instantOf(normalized)
      case Some(instant) => Ok(Date(instant))
      case None => Err(schedule)
    else
      match ParseExpr(normalized)
      case Some(expr) => Ok(Cron(expr))
      case None => Err(schedule)
  }

  /** The same with the cron grammar tried first. */
  ghost function CronFirst(schedule: string, instantOf: string -> Option<int>): Result<ParsedSchedule, string> {
    var normalized := Trim(schedule);
    match ParseExpr(normalized)
    case Some(expr) => Ok(Cron(expr))
    case None =>
      if Matches(Pattern(), normalized) && instantOf(normalized).Some?
      then Ok(Date(instantOf(normalized).value)) else Err(schedule)
  }

  lemma DispatchOrderIrrelevant(schedule: string, instantOf: string -> Option<int>)
    ensures ScheduleOf(schedule, instantOf) == CronFirst(schedule, instantOf)
  {
    if Matches(Pattern(), Trim(schedule)) {
      GrammarsDisjoint(Trim(schedule));
    }
  }

  /** A schedule string is a cron schedule exactly if the cron grammar accepts it, and then for the
      expression it parses to: neither the trimming nor the look at the other grammar loses any. */
  lemma ScheduledExactly(schedule: string, instantOf: string -> Option<int>, e: CronExpr)
    ensures ScheduleOf(schedule, instantOf) == Ok(Cron(e)) <==> ParseExpr(schedule) == Some(e)
  {
    TrimKeepsWords(schedule);
    SameWords(Trim(schedule), schedule);
    if Matches(Pattern(), Trim(schedule)) {
      GrammarsDisjoint(Trim(schedule));
    }
  }

  lemma SameWords(a: string, b: string)
    requires Words(a) == Words(b)
    ensures ParseExpr(a) == ParseExpr(b)
  {
  }

  /** A timestamp that fits the pattern is a one-shot schedule, however it is padded. */
  lemma OneShotScheduled(a: string, s: string, b: string, instantOf: string -> Option<int>)
    requires Blank(a) && Blank(b) && Matches(Pattern(), s)
    ensures ScheduleOf(a + s + b, instantOf) ==
            if instantOf(s).Some? then Ok(Date(instantOf(s).value)) else Err(a + s + b)
  {
    OneShotIsInked(s);
    TrimPadded(a, s, b);
  }

  /** A written expression is scheduled as what it means. */
  lemma PrintedIsScheduled(c: CronPrint.Cron, instantOf: string -> Option<int>)
    requires CronPrint.GoodCron(c)
    ensures ScheduleOf(CronPrint.PrintCron(c), instantOf) == Ok(Cron(CronPrint.Meaning(c)))
  {
    CronPrint.CronRoundTrip(c);
    ScheduledExactly(CronPrint.PrintCron(c), instantOf, CronPrint.Meaning(c));
  }

  method ParseSchedule(schedule: string, instantOf: string -> Option<int>) returns (r: Result<ParsedSchedule, string>)
    ensures r == ScheduleOf(schedule, instantOf)
    ensures forall e :: r == Ok(Cron(e)) <==> ParseExpr(schedule) == Some(e)
  {
    forall e
      ensures ScheduleOf(schedule, instantOf) == Ok(Cron(e)) <==> ParseExpr(schedule) == Some(e)
    {
      ScheduledExactly(schedule, instantOf, e);
    }
    var normalized := Trim(schedule);
    var oneShot := LooksLikeOneShot(normalized);
    if oneShot {
      var instant := instantOf(normalized);
      return if instant.Some? then Ok(Date(instant.value)) else Err(schedule);
    }
    var expr := ParseExpr(normalized);
    r := if expr.Some? then Ok(Cron(expr.value)) else Err(schedule);
  }

  /** For every cron string without a year field the search finds a run from every instant if and
      only if its days are dependable. */
  lemma ParsedAlwaysFoundIffDependable(expr: string, offset: int)
    requires ParseExpr(expr).Some? && |Words(expr)| != 7
    ensures var e := ParseExpr(expr).value;
            (forall after :: !Exhausted(e, offset, after)) <==> Dependable(e)
  {
    ParsedIsWellFormed(expr);
    AlwaysFoundIffDependable(ParseExpr(expr).value, offset);
  }
}
