/**
The cron field grammar: comma lists of values, names, ranges and steps, the `L`, `W` and `#` day
rules, and the 5, 6 and 7 field expressions built from them.
 */
module CronParse {
  import opened Core
  import opened Text
  import opened Decimal
  import opened Ordered
  import opened CronMatching
  import opened CronBound

  datatype FieldKind = Plain | MonthField | WeekdayField

  const MONTH_NAMES := ["JAN", "FEB", "MAR", "APR", "MAY", "JUN", "JUL", "AUG", "SEP", "OCT", "NOV", "DEC"]
  const WEEKDAY_NAMES := ["SUN", "MON", "TUE", "WED", "THU", "FRI", "SAT"]

  function Position(names: seq<string>, name: string): (r: Option<int>)
    ensures r.None? <==> name !in names
    ensures r.Some? ==> 0 <= r.value < |names| && names[r.value] == name
  {
    if names == [] then None
    else if names[0] == name then Some(0)
    else
      match Position(names[1..], name)
      case None => None
      case Some(i) => Some(i + 1)
  }

  /** A weekday name or number, with 7 read as Sunday. */
  function ParseWeekdayToken(token: string): (r: Option<int>)
    ensures r.Some? ==> 0 <= r.value <= 6
  {
    match Position(WEEKDAY_NAMES, Upper(token))
    case Some(i) => Some(i)
    case None =>
      match ParseU32(Upper(token))
      case None => None
      case Some(v) =>
        if 0 <= v <= 6 then Some(v) else if v == 7 then Some(0) else None
  }

  /** The tokens of weekday `d`: its name in any case, its number, and 7 for Sunday. */
  lemma WeekdayTokens(token: string, d: int)
    requires 0 <= d <= 6
    ensures ParseWeekdayToken(token) == Some(d) <==>
            || Upper(token) == ["SUN", "MON", "TUE", "WED", "THU", "FRI", "SAT"][d]
            || ParseU32(Upper(token)) == Some(d)
            || (d == 0 && ParseU32(Upper(token)) == Some(7))
  {
    var name := Upper(token);
    PositionFinds(WEEKDAY_NAMES, name);
    if name in WEEKDAY_NAMES {
      NamesAreNoNumbers(name);
      DistinctNames(name, d, Position(WEEKDAY_NAMES, name).value);
    }
  }

  lemma {:induction false} PositionFinds(names: seq<string>, name: string)
    ensures Position(names, name).Some? <==> name in names
  {
    if names != [] {
      PositionFinds(names[1..], name);
    }
  }

  lemma DistinctNames(name: string, d: int, i: int)
    requires 0 <= d < |WEEKDAY_NAMES| && 0 <= i < |WEEKDAY_NAMES| && WEEKDAY_NAMES[i] == name
    ensures name == WEEKDAY_NAMES[d] <==> i == d
  {
    assert WEEKDAY_NAMES[i][0] == WEEKDAY_NAMES[d][0] && WEEKDAY_NAMES[i][1] == WEEKDAY_NAMES[d][1] ==> i == d;
  }

  lemma NamesAreNoNumbers(name: string)
    requires name in WEEKDAY_NAMES
    ensures ParseU32(name).None?
  {
    assert !IsDigit(name[0]) && name[0] != '+';
  }

  function ParseValueToken(token: string, kind: FieldKind): Option<int> {
    match kind
    case WeekdayField => ParseWeekdayToken(token)
    case MonthField =>
      (match Position(MONTH_NAMES, Upper(token))
       case Some(i) => Some(i + 1)
       case None => ParseU32(token))
    case Plain => ParseU32(token)
  }

  /** The tokens of month `m`: its name in any case, and its number. */
  lemma MonthTokens(token: string, m: int)
    requires 1 <= m <= 12
    ensures ParseValueToken(token, MonthField) == Some(m) <==>
            || Upper(token) == ["JAN", "FEB", "MAR", "APR", "MAY", "JUN",
                                "JUL", "AUG", "SEP", "OCT", "NOV", "DEC"][m - 1]
            || ParseU32(token) == Some(m)
  {
    var name := Upper(token);
    PositionFinds(MONTH_NAMES, name);
    if name in MONTH_NAMES {
      MonthIsNoNumber(token);
      DistinctMonths(name, m - 1, Position(MONTH_NAMES, name).value);
    }
  }

  lemma MonthIsNoNumber(token: string)
    requires Upper(token) in MONTH_NAMES
    ensures ParseU32(token).None?
  {
    assert 'A' <= Upper(token)[0] <= 'S';
    assert !IsDigit(token[0]) && token[0] != '+';
  }

  lemma DistinctMonths(name: string, m: int, i: int)
    requires 0 <= m < |MONTH_NAMES| && 0 <= i < |MONTH_NAMES| && MONTH_NAMES[i] == name
    ensures name == MONTH_NAMES[m] <==> i == m
  {
    var a, b := MONTH_NAMES[i], MONTH_NAMES[m];
    assert a[0] == b[0] && a[1] == b[1] && a[2] == b[2] ==> i == m;
  }

  /** The values `first`, `first + step`, ... up to `last`. */
  datatype Range = Range(first: int, last: int, step: int)

  function Term(r: Range, k: int): int {
    r.first + k * r.step
  }

  predicate InRange(r: Range, v: int) {
    v <= r.last && exists k :: 0 <= k <= v - r.first && v == Term(r, k)
  }

  function RangeValues(r: Range): set<int> {
    set v | r.first <= v <= r.last && InRange(r, v)
  }

  /** The `/n` suffix of a part, if any: the text before it and the step. */
  function ParseStep(part: string): Option<(string, Option<int>)> {
    match SplitOnce(part, '/')
    case None => Some((part, None))
    case Some((spec, stepText)) =>
      match ParseU32(stepText)
      case None => None
      case Some(step) => if step == 0 then None else Some((spec, Some(step)))
  }

  /** The first and last value a part names. A bare value with a step runs to the field's end. */
  function ParseEnds(spec: string, hasStep: bool, min: int, max: int, kind: FieldKind): Option<(int, int)> {
    if spec == "*" then Some((min, max))
    else
      match SplitOnce(spec, '-')
      case Some((lo, hi)) =>
        (match (ParseValueToken(lo, kind), ParseValueToken(hi, kind))
         case (Some(first), Some(last)) => Some((first, last))
         case _ => None)
      case None =>
        match ParseValueToken(spec, kind)
        case None => None
        case Some(v) => Some((v, if hasStep then max else v))
  }

  /** One comma-separated part, read as a range within the field's bounds. */
  function ParseRange(part: string, min: int, max: int, kind: FieldKind): (r: Option<Range>)
    ensures r.Some? ==> min <= r.value.first <= r.value.last <= max
  {
    match ParseStep(part)
    case None => None
    case Some((spec, step)) =>
      match ParseEnds(spec, step.Some?, min, max, kind)
      case None => None
      case Some((first, last)) =>
        if first < min || last > max || first > last then None
        else Some(Range(first, last, if step.Some? then step.value else 1))
  }

  lemma {:induction false} StepIsPositive(part: string, min: int, max: int, kind: FieldKind)
    requires ParseRange(part, min, max, kind).Some?
    ensures ParseRange(part, min, max, kind).value.step > 0
  {
    match SplitOnce(part, '/')
    case None =>
    case Some((spec, stepText)) => ParsedU32IsNatural(stepText);
  }

  lemma ParsedU32IsNatural(s: string)
    ensures ParseU32(s).Some? ==> ParseU32(s).value >= 0
  {
    var digits := if s != [] && s[0] == '+' then s[1..] else s;
    if AllDigits(digits) {
      ParsedIsNatural(digits);
    }
  }

  /** The union of some ranges, unless one of them is missing. */
  function UnionOf(ranges: seq<Option<Range>>): Option<set<int>> {
    if ranges == [] then Some({})
    else
      match UnionOf(ranges[..|ranges| - 1])
      case None => None
      case Some(values) =>
        match ranges[|ranges| - 1]
        case None => None
        case Some(range) => Some(values + RangeValues(range))
  }

  /** The ranges of the comma-separated parts of a field, with `None` for a malformed part. */
  function PartRanges(field: string, min: int, max: int, kind: FieldKind): (ranges: seq<Option<Range>>)
    ensures |ranges| == |Split(field, ',')|
  {
    var parts := Split(field, ',');
    seq(|parts|, i requires 0 <= i < |parts| => ParseRange(parts[i], min, max, kind))
  }

  /** Reading one part appends the terms of its range to the values collected so far. */
  method ParseFieldPart(part: string, min: int, max: int, kind: FieldKind, values: seq<int>)
    returns (ok: bool, out: seq<int>)
    ensures var range := ParseRange(part, min, max, kind);
            && (ok <==> range.Some?)
            && (ok ==> Elements(out) == Elements(values) + RangeValues(range.value))
  {
    out := values;
    var range := ParseRange(part, min, max, kind);
    if range.None? {
      return false, out;
    }
    StepIsPositive(part, min, max, kind);
    var r := range.value;
    var v := r.first;
    ghost var k := 0;
    while v <= r.last
      invariant 0 <= k <= v - r.first && v == Term(r, k)
      invariant Elements(out) == Elements(values) + ValuesBelow(r, v)
      decreases r.last + r.step - v
    {
      NextTerm(r, k);
      OneMoreValue(r, k);
      AppendElement(out, v);
      out := out + [v];
      v := v + r.step;
      k := k + 1;
    }
    AllBelow(r, v);
    ok := true;
  }

  lemma AllBelow(r: Range, v: int)
    requires v > r.last
    ensures ValuesBelow(r, v) == RangeValues(r)
  {
  }

  /** The values of a range less than `v`. */
  function ValuesBelow(r: Range, v: int): set<int> {
    set x | x in RangeValues(r) && x < v
  }

  lemma OneMoreValue(r: Range, k: int)
    requires r.step > 0 && 0 <= k && Term(r, k) <= r.last
    ensures ValuesBelow(r, Term(r, k + 1)) == ValuesBelow(r, Term(r, k)) + {Term(r, k)}
  {
    NextTerm(r, k);
    TermGrows(r, 0, k);
  }

  lemma AppendElement(values: seq<int>, v: int)
    ensures Elements(values + [v]) == Elements(values) + {v}
  {
  }

  /** Between two consecutive terms of a range there is no third. */
  lemma NextTerm(r: Range, k: int)
    requires r.step > 0 && 0 <= k && Term(r, k) <= r.last
    ensures Term(r, k + 1) == Term(r, k) + r.step
    ensures forall x :: x < Term(r, k + 1) && InRange(r, x) <==> x == Term(r, k) || (x < Term(r, k) && InRange(r, x))
  {
    TermGrows(r, 0, k);
    forall x | x < Term(r, k + 1) && InRange(r, x)
      ensures x == Term(r, k) || x < Term(r, k)
    {
      var j :| 0 <= j <= x - r.first && x == Term(r, j);
      if j > k {
        TermGrows(r, k + 1, j);
      } else if j < k {
        TermGrows(r, j, k);
      }
    }
  }

  lemma {:induction false} TermGrows(r: Range, j: int, k: int)
    requires r.step > 0 && j <= k
    ensures Term(r, k) >= Term(r, j) + (k - j)
    decreases k - j
  {
    if j < k {
      TermGrows(r, j, k - 1);
      assert Term(r, k) == Term(r, k - 1) + r.step;
    }
  }

  function FullRange(min: int, max: int): set<int> {
    RangeValues(Range(min, max, 1))
  }

  /** The values a field stands for, ascending and without repeats. */
  function FieldValues(field: string, min: int, max: int, kind: FieldKind): Option<seq<int>> {
    if field == "?" then Some(Sorted(FullRange(min, max)))
    else
      match UnionOf(PartRanges(field, min, max, kind))
      case None => None
      case Some(values) => if values == {} then None else Some(Sorted(values))
  }

  ghost predicate RangesOf(ranges: seq<Option<Range>>, parts: seq<string>, min: int, max: int, kind: FieldKind) {
    |ranges| == |parts| && forall i :: 0 <= i < |parts| ==> ranges[i] == ParseRange(parts[i], min, max, kind)
  }

  lemma UnionSnoc(ranges: seq<Option<Range>>, i: nat)
    requires i < |ranges|
    ensures UnionOf(ranges[..i + 1]).Some? <==> UnionOf(ranges[..i]).Some? && ranges[i].Some?
    ensures UnionOf(ranges[..i + 1]).Some? ==>
              UnionOf(ranges[..i + 1]).value == UnionOf(ranges[..i]).value + RangeValues(ranges[i].value)
  {
    assert ranges[..i + 1][..i] == ranges[..i];
  }

  lemma {:induction false} UnionFails(ranges: seq<Option<Range>>, i: nat)
    requires i <= |ranges| && UnionOf(ranges[..i]).None?
    ensures UnionOf(ranges).None?
    decreases |ranges| - i
  {
    if i == |ranges| {
      assert ranges[..i] == ranges;
    } else {
      UnionSnoc(ranges, i);
      UnionFails(ranges, i + 1);
    }
  }

  method CollectPart(part: string, min: int, max: int, kind: FieldKind, values: seq<int>, ghost range: Option<Range>)
    returns (ok: bool, out: seq<int>)
    requires range == ParseRange(part, min, max, kind)
    ensures ok <==> range.Some?
    ensures ok ==> Elements(out) == Elements(values) + RangeValues(range.value)
  {
    ok, out := ParseFieldPart(part, min, max, kind, values);
  }

  method ParseParts(parts: seq<string>, min: int, max: int, kind: FieldKind, ghost ranges: seq<Option<Range>>)
    returns (ok: bool, values: seq<int>)
    requires RangesOf(ranges, parts, min, max, kind)
    ensures ok <==> UnionOf(ranges).Some?
    ensures ok ==> UnionOf(ranges).value == Elements(values)
  {
    values := [];
    assert Elements(values) == {};
    var i := 0;
    while i < |parts|
      invariant 0 <= i <= |parts|
      invariant UnionOf(ranges[..i]) == Some(Elements(values))
    {
      UnionSnoc(ranges, i);
      ok, values := CollectPart(parts[i], min, max, kind, values, ranges[i]);
      if !ok {
        UnionFails(ranges, i + 1);
        return;
      }
      i := i + 1;
    }
    assert ranges[..i] == ranges;
    ok := true;
  }

  method ParseField(field: string, min: int, max: int, kind: FieldKind) returns (r: Option<seq<int>>)
    ensures r == FieldValues(field, min, max, kind)
  {
    if field == "?" {
      return Some(Sorted(FullRange(min, max)));
    }
    var ok, values := ParseParts(Split(field, ','), min, max, kind, PartRanges(field, min, max, kind));
    if !ok || values == [] {
      assert ok ==> Elements(values) == {};
      return None;
    }
    assert values[0] in Elements(values);
    r := Some(Sorted(Elements(values)));
  }

  ghost predicate InSomeRange(ranges: seq<Option<Range>>, v: int) {
    exists i :: 0 <= i < |ranges| && ranges[i].Some? && InRange(ranges[i].value, v)
  }

  /** A list of parts is rejected exactly when some part is malformed; otherwise it stands for the
      values its parts name. */
  lemma {:induction false} UnionMeaning(ranges: seq<Option<Range>>)
    ensures UnionOf(ranges).None? <==> exists i :: 0 <= i < |ranges| && ranges[i].None?
    ensures UnionOf(ranges).Some? ==> forall v :: v in UnionOf(ranges).value <==> InSomeRange(ranges, v)
  {
    if ranges != [] {
      var front, last := ranges[..|ranges| - 1], ranges[|ranges| - 1];
      UnionMeaning(front);
      assert ranges == front + [last];
      forall v
        ensures InSomeRange(ranges, v) <==> InSomeRange(front, v) || (last.Some? && InRange(last.value, v))
      {
        if i :| 0 <= i < |front| && front[i].Some? && InRange(front[i].value, v) {
          assert ranges[i] == front[i];
        }
      }
    }
  }

  lemma SortedInBounds(values: set<int>, min: int, max: int)
    requires forall v :: v in values ==> min <= v <= max
    ensures AllWithin(Sorted(values), min, max)
  {
    var s := Sorted(values);
    forall i | 0 <= i < |s|
      ensures min <= s[i] <= max
    {
      assert s[i] in s;
    }
  }

  lemma UnionInBounds(ranges: seq<Option<Range>>, min: int, max: int)
    requires forall i :: 0 <= i < |ranges| && ranges[i].Some? ==>
               min <= ranges[i].value.first && ranges[i].value.last <= max
    ensures UnionOf(ranges).Some? ==> forall v :: v in UnionOf(ranges).value ==> min <= v <= max
  {
    UnionMeaning(ranges);
  }

  lemma FullRangeInBounds(min: int, max: int)
    requires min <= max
    ensures FullRange(min, max) != {}
    ensures forall v :: v in FullRange(min, max) <==> min <= v <= max
  {
    forall v | min <= v <= max
      ensures v in FullRange(min, max)
    {
      assert v == Term(Range(min, max, 1), v - min);
    }
    assert min in FullRange(min, max);
  }

  /** The values of a field are ascending, within its bounds and never none. */
  lemma FieldValuesInBounds(field: string, min: int, max: int, kind: FieldKind)
    requires min <= max
    ensures var r := FieldValues(field, min, max, kind);
            r.Some? ==> r.value != [] && StrictlyAscending(r.value) && AllWithin(r.value, min, max)
  {
    if field == "?" {
      FullRangeInBounds(min, max);
      SortedInBounds(FullRange(min, max), min, max);
    } else {
      var ranges := PartRanges(field, min, max, kind);
      UnionInBounds(ranges, min, max);
      if UnionOf(ranges).Some? {
        SortedInBounds(UnionOf(ranges).value, min, max);
      }
    }
  }

  // ---------------------------------------------------------------------------
  // Day fields
  // ---------------------------------------------------------------------------

  datatype DomField = DomField(days: seq<int>, last: bool, nearest: Option<int>)

  ghost predicate DomShape(f: DomField) {
    && AllWithin(f.days, 1, 31)
    && (f.nearest.Some? ==> 1 <= f.nearest.value <= 31)
    && (f.last || f.nearest.Some? || f.days != [])
  }

  function ParseNearestWeekday(day: string): (r: Option<DomField>)
    ensures r.Some? ==> DomShape(r.value)
  {
    match ParseU32(day)
    case None => None
    case Some(day) => if 1 <= day <= 31 then Some(DomField([], false, Some(day))) else None
  }

  function ParseDayList(field: string): Option<DomField> {
    match FieldValues(field, 1, 31, Plain)
    case None => None
    case Some(days) => Some(DomField(days, false, None))
  }

  /** The day-of-month field: `L`, `<n>W`, or a plain list. */
  function ParseDomField(field: string): Option<DomField> {
    var upper := Upper(field);
    if upper == "L" then Some(DomField([], true, None))
    else if upper != [] && upper[|upper| - 1] == 'W' then ParseNearestWeekday(upper[..|upper| - 1])
    else ParseDayList(field)
  }

  /** Weekday 7 is Sunday. */
  function FoldDay(v: int): int {
    if v == 7 then 0 else v
  }

  function FoldSunday(values: seq<int>): seq<int> {
    Sorted(set i | 0 <= i < |values| :: FoldDay(values[i]))
  }

  datatype DowField = DowField(days: seq<int>, last: Option<int>, nth: Option<(int, int)>)

  ghost predicate DowShape(f: DowField) {
    && AllWithin(f.days, 0, 6)
    && (f.last.Some? ==> 0 <= f.last.value <= 6)
    && (f.nth.Some? ==> 0 <= f.nth.value.0 <= 6 && 1 <= f.nth.value.1 <= 5)
    && (f.last.Some? || f.nth.Some? || f.days != [])
  }

  function ParseNthWeekday(wd: string, nth: string): (r: Option<DowField>)
    ensures r.Some? ==> DowShape(r.value)
  {
    match (ParseWeekdayToken(wd), ParseU32(nth))
    case (Some(weekday), Some(n)) =>
      if 1 <= n <= 5 then Some(DowField([], None, Some((weekday, n)))) else None
    case _ => None
  }

  function ParseLastWeekday(wd: string): (r: Option<DowField>)
    ensures r.Some? ==> DowShape(r.value)
  {
    match ParseWeekdayToken(wd)
    case None => None
    case Some(weekday) => Some(DowField([], Some(weekday), None))
  }

  function ParseWeekdayList(field: string, kind: FieldKind): Option<DowField> {
    match FieldValues(field, 0, 7, kind)
    case None => None
    case Some(values) => Some(DowField(FoldSunday(values), None, None))
  }

  /** The day-of-week field: `<weekday>#<n>`, `<weekday>L`, or a plain list. */
  function ParseDowField(field: string): Option<DowField> {
    var upper := Upper(field);
    match SplitOnce(upper, '#')
    case Some((wd, nth)) => ParseNthWeekday(wd, nth)
    case None =>
      if upper != [] && upper[|upper| - 1] == 'L' then ParseLastWeekday(upper[..|upper| - 1])
      else ParseWeekdayList(field, if upper == "?" || upper == "*" then Plain else WeekdayField)
  }

  /** Five fields, six with leading seconds, seven with a trailing year as well. */
  function ParseExpr(expr: string): Option<CronExpr> {
    var fields := Words(expr);
    if |fields| == 5 then ParseFields("0", fields[0], fields[1], fields[2], fields[3], fields[4], None)
    else if |fields| == 6 then
      ParseFields(fields[0], fields[1], fields[2], fields[3], fields[4], fields[5], None)
    else if |fields| == 7 then
      ParseFields(fields[0], fields[1], fields[2], fields[3], fields[4], fields[5], Some(fields[6]))
    else None
  }

  function ParseYear(year: Option<string>): Option<Option<seq<int>>> {
    match year
    case None => Some(None)
    case Some(y) =>
      match FieldValues(y, 1970, 2099, Plain)
      case None => None
      case Some(values) => Some(Some(values))
  }

  predicate IsRestricted(field: string) {
    field != "*" && field != "?"
  }

  function ParseFields(sec: string, min: string, hour: string, dom: string, month: string, dow: string,
                       year: Option<string>): Option<CronExpr>
  {
    var seconds := FieldValues(sec, 0, 59, Plain);
    var minutes := FieldValues(min, 0, 59, Plain);
    var hours := FieldValues(hour, 0, 23, Plain);
    var days := ParseDomField(dom);
    var months := FieldValues(month, 1, 12, MonthField);
    var weekdays := ParseDowField(dow);
    var years := ParseYear(year);
    if seconds.None? || minutes.None? || hours.None? || days.None? || months.None? || weekdays.None? || years.None?
    then None
    else Some(CronExpr(seconds.value, minutes.value, hours.value, days.value.days, months.value,
                       weekdays.value.days, years.value, IsRestricted(dom), IsRestricted(dow),
                       days.value.last, days.value.nearest, weekdays.value.last, weekdays.value.nth))
  }

  lemma DayListShape(field: string)
    ensures ParseDayList(field).Some? ==> DomShape(ParseDayList(field).value)
  {
    FieldValuesInBounds(field, 1, 31, Plain);
  }

  lemma DomFieldShape(field: string)
    ensures ParseDomField(field).Some? ==> DomShape(ParseDomField(field).value)
  {
    DayListShape(field);
  }

  lemma FoldSundayShape(values: seq<int>)
    requires values != [] && AllWithin(values, 0, 7)
    ensures FoldSunday(values) != [] && AllWithin(FoldSunday(values), 0, 6) && StrictlyAscending(FoldSunday(values))
    ensures forall d :: d in FoldSunday(values) <==> (d != 7 && d in values) || (d == 0 && 7 in values)
  {
    var folded := set i | 0 <= i < |values| :: FoldDay(values[i]);
    assert FoldDay(values[0]) in folded;
    SortedInBounds(folded, 0, 6);
    forall d
      ensures d in folded <==> (d != 7 && d in values) || (d == 0 && 7 in values)
    {
      if d != 7 && d in values {
        var i :| 0 <= i < |values| && values[i] == d;
        assert FoldDay(values[i]) in folded;
      } else if d == 0 && 7 in values {
        var i :| 0 <= i < |values| && values[i] == 7;
        assert FoldDay(values[i]) in folded;
      }
    }
  }

  lemma WeekdayListShape(field: string, kind: FieldKind)
    ensures ParseWeekdayList(field, kind).Some? ==> DowShape(ParseWeekdayList(field, kind).value)
  {
    FieldValuesInBounds(field, 0, 7, kind);
    var values := FieldValues(field, 0, 7, kind);
    if values.Some? {
      FoldSundayShape(values.value);
    }
  }

  lemma DowFieldShape(field: string)
    ensures ParseDowField(field).Some? ==> DowShape(ParseDowField(field).value)
  {
    WeekdayListShape(field, if Upper(field) == "?" || Upper(field) == "*" then Plain else WeekdayField);
  }

  lemma ParsedFieldsWellFormed(sec: string, min: string, hour: string, dom: string, month: string, dow: string,
                               year: Option<string>)
    ensures var e := ParseFields(sec, min, hour, dom, month, dow, year);
            e.Some? ==> WellFormed(e.value) && (e.value.years.None? <==> year.None?)
  {
    FieldValuesInBounds(sec, 0, 59, Plain);
    FieldValuesInBounds(min, 0, 59, Plain);
    FieldValuesInBounds(hour, 0, 23, Plain);
    DomFieldShape(dom);
    FieldValuesInBounds(month, 1, 12, MonthField);
    DowFieldShape(dow);
  }

  /** Whatever parses is well-formed, and only seven-field expressions carry a year. */
  lemma ParsedIsWellFormed(expr: string)
    ensures var e := ParseExpr(expr);
            e.Some? ==> WellFormed(e.value) && (e.value.years.None? <==> |Words(expr)| != 7)
  {
    var f := Words(expr);
    if |f| == 5 {
      ParsedFieldsWellFormed("0", f[0], f[1], f[2], f[3], f[4], None);
    } else if |f| == 6 {
      ParsedFieldsWellFormed(f[0], f[1], f[2], f[3], f[4], f[5], None);
    } else if |f| == 7 {
      ParsedFieldsWellFormed(f[0], f[1], f[2], f[3], f[4], f[5], Some(f[6]));
    }
  }

  // ---------------------------------------------------------------------------
  // Every non-empty set of values can be written down
  // ---------------------------------------------------------------------------

  function PrintAll(values: seq<int>): (parts: seq<string>)
    requires forall i :: 0 <= i < |values| ==> values[i] >= 0
    ensures |parts| == |values|
    ensures forall i :: 0 <= i < |values| ==> parts[i] == Print(values[i])
  {
    seq(|values|, i requires 0 <= i < |values| => Print(values[i]))
  }

  /** A plain numeral names itself. */
  lemma NumeralRange(v: int, min: int, max: int)
    requires 0 <= min <= v <= max < U32_LIMIT
    ensures ParseRange(Print(v), min, max, Plain) == Some(Range(v, v, 1))
  {
    ParsePrint(v);
    NoSeparators(Print(v));
  }

  lemma NoSeparators(s: string)
    requires s != [] && AllDigits(s)
    ensures ',' !in s && '/' !in s && '-' !in s && s[0] != '*' && s[0] != '?'
  {
  }

  /** Writing an ascending list of values as a comma list and parsing it gives the list back. */
  lemma ListRoundTrip(values: seq<int>, min: int, max: int)
    requires 0 <= min && max < U32_LIMIT
    requires values != [] && StrictlyAscending(values) && AllWithin(values, min, max)
    ensures FieldValues(Join(PrintAll(values), ','), min, max, Plain) == Some(values)
  {
    var field := Join(PrintAll(values), ',');
    PrintedField(values, min, max);
    var ranges := PartRanges(field, min, max, Plain);
    SingletonUnion(ranges, values);
    assert values[0] in values;
    SortedUnique(Sorted(UnionOf(ranges).value), values);
  }

  lemma PrintedParts(values: seq<int>)
    requires values != [] && forall i :: 0 <= i < |values| ==> values[i] >= 0
    ensures var field := Join(PrintAll(values), ',');
            Split(field, ',') == PrintAll(values) && field != [] && field[0] != '?'
  {
    var parts := PrintAll(values);
    forall i | 0 <= i < |parts|
      ensures ',' !in parts[i] && parts[i] != [] && parts[i][0] != '?'
    {
      NoSeparators(parts[i]);
    }
    SplitJoin(parts, ',');
  }

  lemma PrintedField(values: seq<int>, min: int, max: int)
    requires 0 <= min && max < U32_LIMIT && values != [] && AllWithin(values, min, max)
    ensures var field := Join(PrintAll(values), ',');
            var ranges := PartRanges(field, min, max, Plain);
            && field != "?" && |ranges| == |values|
            && forall i :: 0 <= i < |values| ==> ranges[i] == Some(Range(values[i], values[i], 1))
  {
    PrintedParts(values);
    forall i | 0 <= i < |values|
      ensures ParseRange(Print(values[i]), min, max, Plain) == Some(Range(values[i], values[i], 1))
    {
      NumeralRange(values[i], min, max);
    }
  }

  lemma SingletonUnion(ranges: seq<Option<Range>>, values: seq<int>)
    requires |ranges| == |values|
    requires forall i :: 0 <= i < |ranges| ==> ranges[i] == Some(Range(values[i], values[i], 1))
    ensures UnionOf(ranges).Some? && forall v :: v in UnionOf(ranges).value <==> v in values
  {
    UnionMeaning(ranges);
    forall v
      ensures InSomeRange(ranges, v) <==> v in values
    {
      if v in values {
        var i :| 0 <= i < |values| && values[i] == v;
        assert v == Term(ranges[i].value, 0);
      }
    }
  }
}
