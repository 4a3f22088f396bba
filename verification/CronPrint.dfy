/**
A syntax of cron expressions with its own meaning, and a printer for it: parsing what is printed gives
what is meant, word by word, part by part.
 */
module CronPrint {
  import opened Core
  import opened Text
  import opened Decimal
  import opened Ordered
  import opened CronMatching
  import opened CronBound
  import opened CronParse

  datatype Ends = Every | One(v: nat) | Span(lo: nat, hi: nat)

  datatype Part = Part(ends: Ends, step: Option<nat>)

  datatype Field = Any | List(parts: seq<Part>)

  // ---------------------------------------------------------------------------
  // Parts
  // ---------------------------------------------------------------------------

  function PrintEnds(ends: Ends): string {
    match ends
    case Every => "*"
    case One(v) => Print(v)
    case Span(lo, hi) => Print(lo) + "-" + Print(hi)
  }

  function PrintPart(p: Part): string {
    match p.step
    case None => PrintEnds(p.ends)
    case Some(step) => PrintEnds(p.ends) + "/" + Print(step)
  }

  /** A single value with a step runs on to the end of the field. */
  function RangeOf(p: Part, min: int, max: int): Range {
    var step := if p.step.Some? then p.step.value else 1;
    match p.ends
    case Every => Range(min, max, step)
    case One(v) => Range(v, if p.step.Some? then max else v, step)
    case Span(lo, hi) => Range(lo, hi, step)
  }

  predicate Fits(p: Part, min: int, max: int) {
    var r := RangeOf(p, min, max);
    min <= r.first <= r.last <= max && r.step > 0
  }

  /** The numerals are small enough to be read, and weekdays are counted from 0 to 6. */
  predicate Readable(p: Part, kind: FieldKind) {
    && (p.step.Some? ==> p.step.value < U32_LIMIT)
    && match p.ends
       case Every => true
       case One(v) => Numeral(v, kind)
       case Span(lo, hi) => Numeral(lo, kind) && Numeral(hi, kind)
  }

  predicate Numeral(v: nat, kind: FieldKind) {
    if kind.WeekdayField? then v <= 6 else v < U32_LIMIT
  }

  lemma {:induction false} SplitAt(a: string, b: string, c: char)
    requires c !in a
    ensures SplitOnce(a + [c] + b, c) == Some((a, b))
  {
    var s := a + [c] + b;
    if a == [] {
      assert s[0] == c && s[1..] == b;
    } else {
      assert s[1..] == a[1..] + [c] + b;
      SplitAt(a[1..], b, c);
      assert [a[0]] + a[1..] == a;
    }
  }

  lemma DigitsStay(s: string)
    requires AllDigits(s)
    ensures Upper(s) == s
  {
  }

  lemma NumeralToken(v: nat, kind: FieldKind)
    requires Numeral(v, kind)
    ensures ParseValueToken(Print(v), kind) == Some(v)
  {
    var s := Print(v);
    ParsePrint(v);
    DigitsStay(s);
    NotAName(s, MONTH_NAMES);
    NotAName(s, WEEKDAY_NAMES);
  }

  lemma NotAName(s: string, names: seq<string>)
    requires s != [] && IsDigit(s[0]) && (names == MONTH_NAMES || names == WEEKDAY_NAMES)
    ensures Position(names, s).None?
  {
    assert forall i :: 0 <= i < |MONTH_NAMES| ==> !IsDigit(MONTH_NAMES[i][0]);
    assert forall i :: 0 <= i < |WEEKDAY_NAMES| ==> !IsDigit(WEEKDAY_NAMES[i][0]);
  }

  lemma EndsRead(ends: Ends, hasStep: bool, min: int, max: int, kind: FieldKind)
    requires Readable(Part(ends, None), kind)
    ensures ParseEnds(PrintEnds(ends), hasStep, min, max, kind) ==
            match ends
            case Every => Some((min, max))
            case One(v) => Some((v as int, if hasStep then max else v))
            case Span(lo, hi) => Some((lo as int, hi as int))
  {
    match ends
    case Every =>
    case One(v) =>
      NoSeparators(Print(v));
      NumeralToken(v, kind);
    case Span(lo, hi) =>
      NoSeparators(Print(lo));
      SplitAt(Print(lo), Print(hi), '-');
      assert PrintEnds(ends)[0] == Print(lo)[0];
      NumeralToken(lo, kind);
      NumeralToken(hi, kind);
  }

  lemma NoSlash(ends: Ends)
    ensures '/' !in PrintEnds(ends) && ',' !in PrintEnds(ends) && PrintEnds(ends) != []
  {
    match ends
    case Every =>
    case One(v) => NoSeparators(Print(v));
    case Span(lo, hi) =>
      NoSeparators(Print(lo));
      NoSeparators(Print(hi));
  }

  /** A printed part is read as its range if that lies within the bounds, and rejected otherwise. */
  lemma PartRoundTrip(p: Part, min: int, max: int, kind: FieldKind)
    requires Readable(p, kind)
    ensures ParseRange(PrintPart(p), min, max, kind) ==
            if Fits(p, min, max) then Some(RangeOf(p, min, max)) else None
  {
    NoSlash(p.ends);
    EndsRead(p.ends, p.step.Some?, min, max, kind);
    if p.step.Some? {
      SplitAt(PrintEnds(p.ends), Print(p.step.value), '/');
      ParsePrint(p.step.value);
    }
  }

  // ---------------------------------------------------------------------------
  // Fields
  // ---------------------------------------------------------------------------

  function PrintParts(parts: seq<Part>): (r: seq<string>)
    ensures |r| == |parts| && forall i :: 0 <= i < |r| ==> r[i] == PrintPart(parts[i])
  {
    seq(|parts|, i requires 0 <= i < |parts| => PrintPart(parts[i]))
  }

  function PrintField(f: Field): string {
    match f
    case Any => "?"
    case List(parts) => Join(PrintParts(parts), ',')
  }

  predicate InField(f: Field, v: int, min: int, max: int) {
    match f
    case Any => true
    case List(parts) => exists i :: 0 <= i < |parts| && InRange(RangeOf(parts[i], min, max), v)
  }

  /** The values a field names. */
  function Values(f: Field, min: int, max: int): set<int> {
    set v | min <= v <= max && InField(f, v, min, max)
  }

  predicate GoodField(f: Field, min: int, max: int, kind: FieldKind) {
    f.List? ==>
      && f.parts != []
      && forall i :: 0 <= i < |f.parts| ==> Readable(f.parts[i], kind) && Fits(f.parts[i], min, max)
  }

  lemma PartHasNoComma(p: Part)
    ensures ',' !in PrintPart(p) && PrintPart(p) != [] && PrintPart(p)[0] != '?'
  {
    NoSlash(p.ends);
    if p.step.Some? {
      NoSeparators(Print(p.step.value));
    }
    match p.ends
    case Every =>
    case One(v) => NoSeparators(Print(v));
    case Span(lo, hi) => NoSeparators(Print(lo));
  }

  lemma FieldParts(parts: seq<Part>)
    requires parts != []
    ensures Split(PrintField(List(parts)), ',') == PrintParts(parts)
    ensures PrintField(List(parts)) != [] && PrintField(List(parts))[0] == PrintPart(parts[0])[0] != '?'
  {
    var printed := PrintParts(parts);
    forall i | 0 <= i < |printed|
      ensures ',' !in printed[i]
    {
      PartHasNoComma(parts[i]);
    }
    SplitJoin(printed, ',');
    PartHasNoComma(parts[0]);
  }

  lemma FieldRanges(parts: seq<Part>, min: int, max: int, kind: FieldKind)
    requires parts != [] && GoodField(List(parts), min, max, kind)
    ensures var ranges := PartRanges(PrintField(List(parts)), min, max, kind);
            |ranges| == |parts| && forall i :: 0 <= i < |parts| ==> ranges[i] == Some(RangeOf(parts[i], min, max))
  {
    FieldParts(parts);
    forall i | 0 <= i < |parts|
      ensures ParseRange(PrintPart(parts[i]), min, max, kind) == Some(RangeOf(parts[i], min, max))
    {
      PartRoundTrip(parts[i], min, max, kind);
    }
  }

  lemma {:induction false} ListValues(parts: seq<Part>, ranges: seq<Option<Range>>, min: int, max: int)
    requires parts != [] && |ranges| == |parts|
    requires forall i :: 0 <= i < |parts| ==> Fits(parts[i], min, max)
    requires forall i :: 0 <= i < |parts| ==> ranges[i] == Some(RangeOf(parts[i], min, max))
    ensures UnionOf(ranges) == Some(Values(List(parts), min, max)) && Values(List(parts), min, max) != {}
  {
    RangesUnion(parts, ranges, min, max);
    assert UnionOf(ranges).value == Values(List(parts), min, max);
    FirstValue(parts[0], min, max);
    assert InField(List(parts), RangeOf(parts[0], min, max).first, min, max);
    assert RangeOf(parts[0], min, max).first in Values(List(parts), min, max);
  }

  lemma AnyValues(min: int, max: int)
    requires min <= max
    ensures Values(Any, min, max) == FullRange(min, max) != {}
  {
    FullRangeInBounds(min, max);
  }

  /** A printed field is read as the values it names, ascending. */
  lemma {:induction false} FieldRoundTrip(f: Field, min: int, max: int, kind: FieldKind)
    requires min <= max && GoodField(f, min, max, kind)
    ensures FieldValues(PrintField(f), min, max, kind) == Some(Sorted(Values(f, min, max))) && Values(f, min, max) != {}
  {
    match f
    case Any => AnyValues(min, max);
    case List(parts) =>
      FieldParts(parts);
      FieldRanges(parts, min, max, kind);
      ListValues(parts, PartRanges(PrintField(f), min, max, kind), min, max);
  }

  lemma FirstValue(p: Part, min: int, max: int)
    requires Fits(p, min, max)
    ensures InRange(RangeOf(p, min, max), RangeOf(p, min, max).first)
  {
    var r := RangeOf(p, min, max);
    assert r.first == Term(r, 0);
  }

  lemma {:induction false} RangesUnion(parts: seq<Part>, ranges: seq<Option<Range>>, min: int, max: int)
    requires |ranges| == |parts| && forall i :: 0 <= i < |parts| ==>
               ranges[i] == Some(RangeOf(parts[i], min, max)) && Fits(parts[i], min, max)
    ensures UnionOf(ranges).Some?
    ensures forall v :: v in UnionOf(ranges).value <==> min <= v <= max && InField(List(parts), v, min, max)
  {
    UnionMeaning(ranges);
    forall v
      ensures InSomeRange(ranges, v) <==> min <= v <= max && InField(List(parts), v, min, max)
    {
      if InSomeRange(ranges, v) {
        var i :| 0 <= i < |ranges| && ranges[i].Some? && InRange(ranges[i].value, v);
        assert InRange(RangeOf(parts[i], min, max), v);
      }
      if InField(List(parts), v, min, max) {
        var i :| 0 <= i < |parts| && InRange(RangeOf(parts[i], min, max), v);
        assert InRange(ranges[i].value, v);
      }
    }
  }

  // ---------------------------------------------------------------------------
  // Day fields
  // ---------------------------------------------------------------------------

  datatype DomSyntax = LastDay | Workday(n: nat) | DomDays(days: Field)

  datatype DowSyntax = LastOf(w: nat) | NthOf(w: nat, n: nat) | DowDays(days: Field)

  function PrintDom(d: DomSyntax): string {
    match d
    case LastDay => "L"
    case Workday(n) => Print(n) + "W"
    case DomDays(days) => PrintField(days)
  }

  function PrintDow(d: DowSyntax): string {
    match d
    case LastOf(w) => Print(w) + "L"
    case NthOf(w, n) => Print(w) + "#" + Print(n)
    case DowDays(days) => PrintField(days)
  }

  /** The characters fields are written in, other than the letters of the day rules. */
  predicate FieldChar(c: char) {
    IsDigit(c) || c == '*' || c == '-' || c == '/' || c == ',' || c == '?'
  }

  predicate AllFieldChars(s: string) {
    forall i :: 0 <= i < |s| ==> FieldChar(s[i])
  }

  lemma PartChars(p: Part)
    ensures AllFieldChars(PrintPart(p))
  {
  }

  lemma {:induction false} JoinChars(parts: seq<string>)
    requires forall i :: 0 <= i < |parts| ==> AllFieldChars(parts[i])
    ensures AllFieldChars(Join(parts, ','))
  {
    if |parts| > 1 {
      JoinChars(parts[1..]);
    }
  }

  lemma FieldChars(f: Field)
    ensures AllFieldChars(PrintField(f))
  {
    if f.List? {
      forall i | 0 <= i < |f.parts|
        ensures AllFieldChars(PrintPart(f.parts[i]))
      {
        PartChars(f.parts[i]);
      }
      JoinChars(PrintParts(f.parts));
    }
  }

  lemma NoLetters(s: string)
    requires s != [] && AllFieldChars(s)
    ensures Upper(s) == s && s != "L" && s[|s| - 1] != 'W' && s[|s| - 1] != 'L' && '#' !in s
  {
    assert s[0] != 'L';
  }

  lemma FieldNotEmpty(f: Field)
    requires f.List? ==> f.parts != []
    ensures PrintField(f) != []
  {
    if f.List? {
      FieldParts(f.parts);
    }
  }

  predicate GoodDom(d: DomSyntax) {
    match d
    case LastDay => true
    case Workday(n) => 1 <= n <= 31
    case DomDays(days) => GoodField(days, 1, 31, Plain)
  }

  function DomMeaning(d: DomSyntax): DomField {
    match d
    case LastDay => DomField([], true, None)
    case Workday(n) => DomField([], false, Some(n as int))
    case DomDays(days) => DomField(Sorted(Values(days, 1, 31)), false, None)
  }

  lemma DomRoundTrip(d: DomSyntax)
    requires GoodDom(d)
    ensures ParseDomField(PrintDom(d)) == Some(DomMeaning(d))
  {
    match d
    case LastDay =>
      assert Upper("L") == "L";
    case Workday(n) =>
      var s := Print(n) + "W";
      assert Upper(s) == s;
      assert s[..|s| - 1] == Print(n) && s[0] == Print(n)[0] && s[0] != 'L';
      ParsePrint(n);
    case DomDays(days) =>
      FieldNotEmpty(days);
      FieldChars(days);
      NoLetters(PrintField(days));
      FieldRoundTrip(days, 1, 31, Plain);
  }

  predicate GoodDow(d: DowSyntax) {
    match d
    case LastOf(w) => w <= 6
    case NthOf(w, n) => w <= 6 && 1 <= n <= 5
    case DowDays(days) => GoodField(days, 0, 7, WeekdayField)
  }

  /** A list may run on to 7, which is Sunday again. */
  function DowMeaning(d: DowSyntax): DowField {
    match d
    case LastOf(w) => DowField([], Some(w as int), None)
    case NthOf(w, n) => DowField([], None, Some((w as int, n as int)))
    case DowDays(days) => DowField(Sorted(Weekdays(days)), None, None)
  }

  function Weekdays(days: Field): set<int> {
    set d | 0 <= d <= 6 && (d in Values(days, 0, 7) || (d == 0 && 7 in Values(days, 0, 7)))
  }

  lemma WeekdayNumeral(w: nat)
    requires w <= 6
    ensures ParseWeekdayToken(Print(w)) == Some(w as int) && Upper(Print(w)) == Print(w)
  {
    NumeralToken(w, WeekdayField);
    DigitsStay(Print(w));
  }

  lemma LastOfRoundTrip(w: nat)
    requires w <= 6
    ensures ParseDowField(Print(w) + "L") == Some(DowField([], Some(w as int), None))
  {
    var s := Print(w) + "L";
    assert Upper(s) == s && '#' !in s;
    assert s[..|s| - 1] == Print(w);
    WeekdayNumeral(w);
  }

  lemma NthOfRoundTrip(w: nat, n: nat)
    requires w <= 6 && 1 <= n <= 5
    ensures ParseDowField(Print(w) + "#" + Print(n)) == Some(DowField([], None, Some((w as int, n as int))))
  {
    var s := Print(w) + "#" + Print(n);
    assert Upper(s) == s;
    assert '#' !in Print(w);
    SplitAt(Print(w), Print(n), '#');
    WeekdayNumeral(w);
    ParsePrint(n);
  }

  lemma FoldIsWeekdays(days: Field)
    requires Values(days, 0, 7) != {}
    ensures FoldSunday(Sorted(Values(days, 0, 7))) == Sorted(Weekdays(days))
  {
    var values := Sorted(Values(days, 0, 7));
    assert values != [];
    SortedInBounds(Values(days, 0, 7), 0, 7);
    FoldSundayShape(values);
    FoldMembers(days, values, FoldSunday(values));
    SortedUnique(FoldSunday(values), Sorted(Weekdays(days)));
  }

  lemma FoldMembers(days: Field, values: seq<int>, folded: seq<int>)
    requires (forall d :: d in values <==> d in Values(days, 0, 7)) && AllWithin(values, 0, 7)
    requires forall d :: d in folded <==> (d != 7 && d in values) || (d == 0 && 7 in values)
    ensures forall d :: d in folded <==> d in Weekdays(days)
  {
  }

  /** A field read as plain numbers or as weekdays, which are the same up to 6. */
  lemma StarIsStar(days: Field)
    requires GoodField(days, 0, 7, WeekdayField) && (PrintField(days) == "?" || PrintField(days) == "*")
    ensures GoodField(days, 0, 7, Plain)
  {
  }

  lemma WeekdayListRoundTrip(days: Field, kind: FieldKind)
    requires GoodField(days, 0, 7, kind)
    ensures ParseWeekdayList(PrintField(days), kind) == Some(DowField(Sorted(Weekdays(days)), None, None))
  {
    FieldRoundTrip(days, 0, 7, kind);
    FoldIsWeekdays(days);
  }

  lemma PlainListField(s: string, kind: FieldKind)
    requires s != [] && AllFieldChars(s) && kind == if s == "?" || s == "*" then Plain else WeekdayField
    ensures ParseDowField(s) == ParseWeekdayList(s, kind)
  {
    NoLetters(s);
  }

  lemma DowRoundTrip(d: DowSyntax)
    requires GoodDow(d)
    ensures ParseDowField(PrintDow(d)) == Some(DowMeaning(d))
  {
    match d
    case LastOf(w) => LastOfRoundTrip(w);
    case NthOf(w, n) => NthOfRoundTrip(w, n);
    case DowDays(days) =>
      var s := PrintField(days);
      FieldNotEmpty(days);
      FieldChars(days);
      var kind := if s == "?" || s == "*" then Plain else WeekdayField;
      if kind == Plain {
        StarIsStar(days);
      }
      PlainListField(s, kind);
      WeekdayListRoundTrip(days, kind);
  }

  // ---------------------------------------------------------------------------
  // Expressions
  // ---------------------------------------------------------------------------

  /** Without seconds an expression has five words; a year comes only with seconds. */
  datatype Cron = Cron(
    seconds: Option<Field>,
    minutes: Field,
    hours: Field,
    dom: DomSyntax,
    months: Field,
    dow: DowSyntax,
    years: Option<Field>)

  function WordsOf(c: Cron): seq<string> {
    var five := [PrintField(c.minutes), PrintField(c.hours), PrintDom(c.dom), PrintField(c.months), PrintDow(c.dow)];
    if c.seconds.None? then five
    else if c.years.None? then [PrintField(c.seconds.value)] + five
    else [PrintField(c.seconds.value)] + five + [PrintField(c.years.value)]
  }

  function PrintCron(c: Cron): string {
    Join(WordsOf(c), ' ')
  }

  predicate GoodCron(c: Cron) {
    && (c.seconds.Some? ==> GoodField(c.seconds.value, 0, 59, Plain))
    && GoodField(c.minutes, 0, 59, Plain) && GoodField(c.hours, 0, 23, Plain)
    && GoodDom(c.dom) && GoodField(c.months, 1, 12, MonthField) && GoodDow(c.dow)
    && (c.years.Some? ==> c.seconds.Some? && GoodField(c.years.value, 1970, 2099, Plain))
  }

  /** A field that leaves everything open. */
  predicate Open(f: Field) {
    f.Any? || f == List([Part(Every, None)])
  }

  /** What an expression means: each field its own values. */
  function Meaning(c: Cron): CronExpr {
    var dom, dow := DomMeaning(c.dom), DowMeaning(c.dow);
    CronExpr(
      seconds := if c.seconds.Some? then Sorted(Values(c.seconds.value, 0, 59)) else [0],
      minutes := Sorted(Values(c.minutes, 0, 59)),
      hours := Sorted(Values(c.hours, 0, 23)),
      daysOfMonth := dom.days,
      months := Sorted(Values(c.months, 1, 12)),
      daysOfWeek := dow.days,
      years := if c.years.Some? then Some(Sorted(Values(c.years.value, 1970, 2099))) else None,
      domRestricted := !(c.dom.DomDays? && Open(c.dom.days)),
      dowRestricted := !(c.dow.DowDays? && Open(c.dow.days)),
      domLast := dom.last,
      domNearestWeekday := dom.nearest,
      dowLast := dow.last,
      dowNth := dow.nth)
  }

  lemma {:induction false} OneWord(a: string, rest: string)
    requires a != [] && forall i :: 0 <= i < |a| ==> !IsWhitespace(a[i])
    ensures Words(a + [' '] + rest) == [a] + Words(rest)
    ensures Words(a) == [a]
  {
    var s := a + [' '] + rest;
    if |a| == 1 {
      assert s[1..] == [' '] + rest && s[1] == ' ';
      assert ([' '] + rest)[1..] == rest;
      assert a == [a[0]] && a[1..] == [];
    } else {
      assert s[1..] == a[1..] + [' '] + rest && s[1] == a[1];
      OneWord(a[1..], rest);
      assert [a[0]] + a[1..] == a;
    }
  }

  lemma {:induction false} JoinedWords(words: seq<string>)
    requires forall w :: 0 <= w < |words| ==>
               words[w] != [] && forall i :: 0 <= i < |words[w]| ==> !IsWhitespace(words[w][i])
    ensures Words(Join(words, ' ')) == words
  {
    if |words| > 0 {
      OneWord(words[0], Join(words[1..], ' '));
      JoinedWords(words[1..]);
      assert [words[0]] + words[1..] == words;
    }
  }

  predicate IsWord(s: string) {
    s != [] && forall i :: 0 <= i < |s| ==> !IsWhitespace(s[i])
  }

  lemma FieldIsWord(f: Field)
    requires f.List? ==> f.parts != []
    ensures IsWord(PrintField(f))
  {
    FieldNotEmpty(f);
    FieldChars(f);
  }

  lemma DomIsWord(d: DomSyntax)
    requires GoodDom(d)
    ensures IsWord(PrintDom(d))
  {
    if d.DomDays? {
      FieldIsWord(d.days);
    }
  }

  lemma DowIsWord(d: DowSyntax)
    requires GoodDow(d)
    ensures IsWord(PrintDow(d))
  {
    if d.DowDays? {
      FieldIsWord(d.days);
    }
  }

  lemma PrintedWords(c: Cron)
    requires GoodCron(c)
    ensures Words(PrintCron(c)) == WordsOf(c)
  {
    FieldIsWord(c.minutes);
    FieldIsWord(c.hours);
    FieldIsWord(c.months);
    DomIsWord(c.dom);
    DowIsWord(c.dow);
    if c.seconds.Some? {
      FieldIsWord(c.seconds.value);
    }
    if c.years.Some? {
      FieldIsWord(c.years.value);
    }
    assert forall w :: 0 <= w < |WordsOf(c)| ==> IsWord(WordsOf(c)[w]);
    JoinedWords(WordsOf(c));
  }

  lemma StarExactly(f: Field)
    requires f.List? ==> f.parts != []
    ensures IsRestricted(PrintField(f)) <==> !Open(f)
  {
    if f.List? {
      var parts := f.parts;
      FieldParts(parts);
      if PrintField(f) == "*" {
        SplitFirst("*", "", ',');
        assert PrintParts(parts) == ["*"];
        assert PrintPart(parts[0]) == "*";
        StarPart(parts[0]);
        assert parts == [parts[0]];
      } else {
        assert f == List([Part(Every, None)]) ==> PrintParts(parts) == ["*"];
      }
    }
  }

  lemma EndsStart(ends: Ends)
    ensures PrintEnds(ends) != [] && (PrintEnds(ends)[0] == '*' <==> ends.Every?)
  {
    match ends
    case Every =>
    case One(v) => NoSeparators(Print(v));
    case Span(lo, hi) => NoSeparators(Print(lo));
  }

  lemma StarPart(p: Part)
    requires PrintPart(p) == "*"
    ensures p == Part(Every, None)
  {
    EndsStart(p.ends);
    assert PrintPart(p)[0] == PrintEnds(p.ends)[0];
    assert p.step.Some? ==> |PrintPart(p)| > 1;
  }

  lemma DomRestricts(d: DomSyntax)
    requires GoodDom(d)
    ensures IsRestricted(PrintDom(d)) <==> !(d.DomDays? && Open(d.days))
  {
    if d.DomDays? {
      StarExactly(d.days);
    } else {
      assert PrintDom(d)[0] != '*' && PrintDom(d)[0] != '?';
    }
  }

  lemma DowRestricts(d: DowSyntax)
    requires GoodDow(d)
    ensures IsRestricted(PrintDow(d)) <==> !(d.DowDays? && Open(d.days))
  {
    if d.DowDays? {
      StarExactly(d.days);
    } else {
      assert PrintDow(d)[0] != '*' && PrintDow(d)[0] != '?';
    }
  }

  lemma FieldsGive(sec: string, min: string, hour: string, dom: string, month: string, dow: string,
                   year: Option<string>, e: CronExpr)
    requires FieldValues(sec, 0, 59, Plain) == Some(e.seconds)
    requires FieldValues(min, 0, 59, Plain) == Some(e.minutes)
    requires FieldValues(hour, 0, 23, Plain) == Some(e.hours)
    requires ParseDomField(dom) == Some(DomField(e.daysOfMonth, e.domLast, e.domNearestWeekday))
    requires FieldValues(month, 1, 12, MonthField) == Some(e.months)
    requires ParseDowField(dow) == Some(DowField(e.daysOfWeek, e.dowLast, e.dowNth))
    requires ParseYear(year) == Some(e.years)
    requires IsRestricted(dom) == e.domRestricted && IsRestricted(dow) == e.dowRestricted
    ensures ParseFields(sec, min, hour, dom, month, dow, year) == Some(e)
  {
  }

  /** The five words every expression has. */
  lemma FieldsRoundTrip(c: Cron, sec: string, year: Option<string>)
    requires GoodCron(c)
    requires FieldValues(sec, 0, 59, Plain) == Some(Meaning(c).seconds) && ParseYear(year) == Some(Meaning(c).years)
    ensures ParseFields(sec, PrintField(c.minutes), PrintField(c.hours), PrintDom(c.dom), PrintField(c.months),
                        PrintDow(c.dow), year) == Some(Meaning(c))
  {
    FieldRoundTrip(c.minutes, 0, 59, Plain);
    FieldRoundTrip(c.hours, 0, 23, Plain);
    FieldRoundTrip(c.months, 1, 12, MonthField);
    DomRoundTrip(c.dom);
    DowRoundTrip(c.dow);
    DomRestricts(c.dom);
    DowRestricts(c.dow);
    FieldsGive(sec, PrintField(c.minutes), PrintField(c.hours), PrintDom(c.dom), PrintField(c.months), PrintDow(c.dow),
               year, Meaning(c));
  }

  /** Without a seconds word a run comes at second 0. */
  lemma DefaultSeconds()
    ensures FieldValues("0", 0, 59, Plain) == Some([0])
  {
    ListRoundTrip([0], 0, 59);
    assert PrintAll([0]) == ["0"];
  }

  lemma ByWords(expr: string)
    ensures var f := Words(expr);
            && (|f| == 5 ==> ParseExpr(expr) == ParseFields("0", f[0], f[1], f[2], f[3], f[4], None))
            && (|f| == 6 ==> ParseExpr(expr) == ParseFields(f[0], f[1], f[2], f[3], f[4], f[5], None))
            && (|f| == 7 ==> ParseExpr(expr) == ParseFields(f[0], f[1], f[2], f[3], f[4], f[5], Some(f[6])))
  {
  }

  lemma SecondsAndYear(c: Cron)
    requires GoodCron(c)
    ensures c.seconds.Some? ==> FieldValues(PrintField(c.seconds.value), 0, 59, Plain) == Some(Meaning(c).seconds)
    ensures c.seconds.None? ==> FieldValues("0", 0, 59, Plain) == Some(Meaning(c).seconds)
    ensures ParseYear(if c.years.Some? then Some(PrintField(c.years.value)) else None) == Some(Meaning(c).years)
  {
    if c.seconds.Some? {
      FieldRoundTrip(c.seconds.value, 0, 59, Plain);
    } else {
      DefaultSeconds();
    }
    if c.years.Some? {
      FieldRoundTrip(c.years.value, 1970, 2099, Plain);
    }
  }

  /** Parsing what is printed gives what is meant, with five, six and seven words. */
  lemma CronRoundTrip(c: Cron)
    requires GoodCron(c)
    ensures ParseExpr(PrintCron(c)) == Some(Meaning(c))
  {
    PrintedWords(c);
    ByWords(PrintCron(c));
    SecondsAndYear(c);
    FieldsRoundTrip(c, if c.seconds.Some? then PrintField(c.seconds.value) else "0",
                    if c.years.Some? then Some(PrintField(c.years.value)) else None);
  }

  // ---------------------------------------------------------------------------
  // Every parsed expression can be written down
  // ---------------------------------------------------------------------------

  ghost predicate Listable(values: seq<int>, min: int, max: int) {
    values != [] && StrictlyAscending(values) && AllWithin(values, min, max)
  }

  /** All of `min` to `max`. */
  ghost predicate Whole(values: seq<int>, min: int, max: int) {
    StrictlyAscending(values) && forall v :: v in values <==> min <= v <= max
  }

  /** What a parser makes: ascending lists within bounds, at most one rule per day field, and an open
      day field only for the whole range. */
  ghost predicate Canonical(e: CronExpr) {
    && Listable(e.seconds, 0, 59) && Listable(e.minutes, 0, 59) && Listable(e.hours, 0, 23)
    && Listable(e.months, 1, 12) && (e.years.Some? ==> Listable(e.years.value, 1970, 2099))
    && CanonicalDom(DomField(e.daysOfMonth, e.domLast, e.domNearestWeekday), e.domRestricted)
    && CanonicalDow(DowField(e.daysOfWeek, e.dowLast, e.dowNth), e.dowRestricted)
  }

  ghost predicate CanonicalDom(f: DomField, restricted: bool) {
    if f.last then f.days == [] && f.nearest.None? && restricted
    else if f.nearest.Some? then f.days == [] && 1 <= f.nearest.value <= 31 && restricted
    else if restricted then Listable(f.days, 1, 31)
    else Whole(f.days, 1, 31)
  }

  ghost predicate CanonicalDow(f: DowField, restricted: bool) {
    if f.last.Some? then f.days == [] && f.nth.None? && 0 <= f.last.value <= 6 && restricted
    else if f.nth.Some? then f.days == [] && 0 <= f.nth.value.0 <= 6 && 1 <= f.nth.value.1 <= 5 && restricted
    else if restricted then Listable(f.days, 0, 6)
    else Whole(f.days, 0, 6)
  }

  ghost function Listed(values: seq<int>): (f: Field)
    requires forall i :: 0 <= i < |values| ==> values[i] >= 0
    ensures f.List? && |f.parts| == |values|
    ensures forall i :: 0 <= i < |values| ==> f.parts[i] == Part(One(values[i]), None)
  {
    List(seq(|values|, i requires 0 <= i < |values| => Part(One(values[i]), None)))
  }

  lemma ListedValues(values: seq<int>, min: int, max: int)
    requires 0 <= min && Listable(values, min, max)
    ensures Sorted(Values(Listed(values), min, max)) == values && !Open(Listed(values))
  {
    var f := Listed(values);
    forall v
      ensures v in Values(f, min, max) <==> v in values
    {
      if v in values {
        var i :| 0 <= i < |values| && values[i] == v;
        assert v == Term(RangeOf(f.parts[i], min, max), 0);
      }
    }
    SortedUnique(Sorted(Values(f, min, max)), values);
    assert f.parts[0].ends.One?;
  }

  lemma ListedGood(values: seq<int>, min: int, max: int, kind: FieldKind)
    requires 0 <= min && max < U32_LIMIT && Listable(values, min, max)
    requires kind.WeekdayField? ==> forall i :: 0 <= i < |values| ==> values[i] <= 6
    ensures GoodField(Listed(values), min, max, kind)
  {
  }

  lemma WholeValues(values: seq<int>, min: int, max: int)
    requires Whole(values, min, max)
    ensures Sorted(Values(Any, min, max)) == values
  {
    SortedUnique(Sorted(Values(Any, min, max)), values);
  }

  ghost function WrittenDom(f: DomField, restricted: bool): DomSyntax
    requires CanonicalDom(f, restricted)
  {
    if f.last then LastDay
    else if f.nearest.Some? then Workday(f.nearest.value)
    else DomDays(if restricted then Listed(f.days) else Any)
  }

  ghost function WrittenDow(f: DowField, restricted: bool): DowSyntax
    requires CanonicalDow(f, restricted)
  {
    if f.last.Some? then LastOf(f.last.value)
    else if f.nth.Some? then NthOf(f.nth.value.0, f.nth.value.1)
    else DowDays(if restricted then Listed(f.days) else Any)
  }

  lemma DomListWritten(days: seq<int>)
    requires Listable(days, 1, 31)
    ensures var d := DomDays(Listed(days));
            GoodDom(d) && DomMeaning(d) == DomField(days, false, None) && !Open(d.days)
  {
    ListedValues(days, 1, 31);
    ListedGood(days, 1, 31, Plain);
  }

  lemma DomWritten(f: DomField, restricted: bool)
    requires CanonicalDom(f, restricted)
    ensures var d := WrittenDom(f, restricted);
            GoodDom(d) && DomMeaning(d) == f && (restricted <==> !(d.DomDays? && Open(d.days)))
  {
    if f.last {
      assert f == DomField([], true, None);
    } else if f.nearest.Some? {
      assert f == DomField([], false, f.nearest);
    } else {
      assert f == DomField(f.days, false, None);
      if restricted {
        DomListWritten(f.days);
      } else {
        WholeValues(f.days, 1, 31);
      }
    }
  }

  lemma ListedWeekdays(days: seq<int>)
    requires Listable(days, 0, 6)
    ensures Sorted(Weekdays(Listed(days))) == days
  {
    ListedValues(days, 0, 7);
    forall d
      ensures d in Weekdays(Listed(days)) <==> d in days
    {
      assert d in Values(Listed(days), 0, 7) <==> d in Sorted(Values(Listed(days), 0, 7));
      assert 7 in Values(Listed(days), 0, 7) <==> 7 in Sorted(Values(Listed(days), 0, 7));
    }
    SortedUnique(Sorted(Weekdays(Listed(days))), days);
  }

  lemma DowListWritten(days: seq<int>)
    requires Listable(days, 0, 6)
    ensures var d := DowDays(Listed(days));
            GoodDow(d) && DowMeaning(d) == DowField(days, None, None) && !Open(d.days)
  {
    ListedWeekdays(days);
    ListedValues(days, 0, 6);
    ListedGood(days, 0, 7, WeekdayField);
  }

  lemma AllWeekdays(days: seq<int>)
    requires Whole(days, 0, 6)
    ensures Sorted(Weekdays(Any)) == days
  {
    SortedUnique(Sorted(Weekdays(Any)), days);
  }

  lemma DowWritten(f: DowField, restricted: bool)
    requires CanonicalDow(f, restricted)
    ensures var d := WrittenDow(f, restricted);
            GoodDow(d) && DowMeaning(d) == f && (restricted <==> !(d.DowDays? && Open(d.days)))
  {
    if f.last.Some? {
      assert f == DowField([], f.last, None);
    } else if f.nth.Some? {
      assert f == DowField([], None, f.nth);
    } else {
      assert f == DowField(f.days, None, None);
      if restricted {
        DowListWritten(f.days);
      } else {
        AllWeekdays(f.days);
      }
    }
  }

  /** The expression in six or seven words, with every list spelled out. */
  ghost function Written(e: CronExpr): Cron
    requires Canonical(e)
  {
    Cron(Some(Listed(e.seconds)), Listed(e.minutes), Listed(e.hours),
         WrittenDom(DomField(e.daysOfMonth, e.domLast, e.domNearestWeekday), e.domRestricted),
         Listed(e.months),
         WrittenDow(DowField(e.daysOfWeek, e.dowLast, e.dowNth), e.dowRestricted),
         if e.years.Some? then Some(Listed(e.years.value)) else None)
  }

  lemma WrittenIsGood(e: CronExpr)
    requires Canonical(e)
    ensures GoodCron(Written(e))
  {
    ListedGood(e.seconds, 0, 59, Plain);
    ListedGood(e.minutes, 0, 59, Plain);
    ListedGood(e.hours, 0, 23, Plain);
    ListedGood(e.months, 1, 12, MonthField);
    if e.years.Some? {
      ListedGood(e.years.value, 1970, 2099, Plain);
    }
    DomWritten(DomField(e.daysOfMonth, e.domLast, e.domNearestWeekday), e.domRestricted);
    DowWritten(DowField(e.daysOfWeek, e.dowLast, e.dowNth), e.dowRestricted);
  }

  /** An expression is known by its fields. */
  lemma MeaningIs(c: Cron, e: CronExpr)
    requires c.seconds.Some? && Sorted(Values(c.seconds.value, 0, 59)) == e.seconds
    requires Sorted(Values(c.minutes, 0, 59)) == e.minutes && Sorted(Values(c.hours, 0, 23)) == e.hours
    requires Sorted(Values(c.months, 1, 12)) == e.months
    requires if c.years.Some? then e.years == Some(Sorted(Values(c.years.value, 1970, 2099))) else e.years.None?
    requires DomMeaning(c.dom) == DomField(e.daysOfMonth, e.domLast, e.domNearestWeekday)
    requires DowMeaning(c.dow) == DowField(e.daysOfWeek, e.dowLast, e.dowNth)
    requires e.domRestricted == !(c.dom.DomDays? && Open(c.dom.days))
    requires e.dowRestricted == !(c.dow.DowDays? && Open(c.dow.days))
    ensures Meaning(c) == e
  {
  }

  lemma WrittenMeans(e: CronExpr)
    requires Canonical(e)
    ensures Meaning(Written(e)) == e
  {
    ListedValues(e.seconds, 0, 59);
    ListedValues(e.minutes, 0, 59);
    ListedValues(e.hours, 0, 23);
    ListedValues(e.months, 1, 12);
    if e.years.Some? {
      ListedValues(e.years.value, 1970, 2099);
    }
    DomWritten(DomField(e.daysOfMonth, e.domLast, e.domNearestWeekday), e.domRestricted);
    DowWritten(DowField(e.daysOfWeek, e.dowLast, e.dowNth), e.dowRestricted);
    MeaningIs(Written(e), e);
  }

  lemma EveryValue(min: int, max: int)
    requires min <= max
    ensures Values(List([Part(Every, None)]), min, max) == FullRange(min, max)
  {
    FullRangeInBounds(min, max);
    var parts := [Part(Every, None)];
    forall v | min <= v <= max
      ensures InField(List(parts), v, min, max)
    {
      assert v == Term(RangeOf(parts[0], min, max), v - min);
      assert InRange(RangeOf(parts[0], min, max), v);
    }
  }

  lemma SortedIsWhole(min: int, max: int)
    requires min <= max
    ensures Whole(Sorted(FullRange(min, max)), min, max)
  {
    FullRangeInBounds(min, max);
  }

  lemma StarIsPrinted()
    ensures PrintField(List([Part(Every, None)])) == "*"
  {
    assert PrintParts([Part(Every, None)]) == ["*"];
  }

  lemma OpenIsWhole(field: string, min: int, max: int)
    requires min <= max && (field == "*" || field == "?")
    ensures FieldValues(field, min, max, Plain).Some? && Whole(FieldValues(field, min, max, Plain).value, min, max)
  {
    SortedIsWhole(min, max);
    if field == "*" {
      StarIsPrinted();
      EveryValue(min, max);
      FieldRoundTrip(List([Part(Every, None)]), min, max, Plain);
    }
  }

  lemma OpenDays(field: string)
    requires field == "*" || field == "?"
    ensures ParseDomField(field) == ParseDayList(field)
  {
    NoLetters(field);
  }

  lemma DayListCanonical(field: string)
    ensures ParseDayList(field).Some? ==> CanonicalDom(ParseDayList(field).value, true)
  {
    FieldValuesInBounds(field, 1, 31, Plain);
  }

  lemma ParsedDomCanonical(field: string)
    ensures ParseDomField(field).Some? ==> CanonicalDom(ParseDomField(field).value, IsRestricted(field))
  {
    if IsRestricted(field) {
      DayListCanonical(field);
    } else {
      OpenDays(field);
      OpenIsWhole(field, 1, 31);
    }
  }

  lemma WeekdayListCanonical(field: string, kind: FieldKind)
    ensures var f := ParseWeekdayList(field, kind);
            f.Some? ==> f.value == DowField(f.value.days, None, None) && Listable(f.value.days, 0, 6)
  {
    FieldValuesInBounds(field, 0, 7, kind);
    var values := FieldValues(field, 0, 7, kind);
    if values.Some? {
      FoldSundayShape(values.value);
    }
  }

  lemma FoldWhole(values: seq<int>)
    requires Whole(values, 0, 7)
    ensures Whole(FoldSunday(values), 0, 6)
  {
    assert 0 in values;
    forall i | 0 <= i < |values|
      ensures 0 <= values[i] <= 7
    {
      assert values[i] in values;
    }
    FoldSundayShape(values);
  }

  lemma OpenWeekdays(field: string)
    requires field == "*" || field == "?"
    ensures ParseDowField(field) == ParseWeekdayList(field, Plain)
    ensures ParseDowField(field).Some? ==> Whole(ParseDowField(field).value.days, 0, 6)
  {
    PlainListField(field, Plain);
    OpenIsWhole(field, 0, 7);
    FoldWhole(FieldValues(field, 0, 7, Plain).value);
  }

  lemma NthIsCanonical(wd: string, nth: string)
    ensures ParseNthWeekday(wd, nth).Some? ==> CanonicalDow(ParseNthWeekday(wd, nth).value, true)
  {
  }

  lemma LastIsCanonical(wd: string)
    ensures ParseLastWeekday(wd).Some? ==> CanonicalDow(ParseLastWeekday(wd).value, true)
  {
  }

  lemma ParsedDowCanonical(field: string)
    ensures ParseDowField(field).Some? ==> CanonicalDow(ParseDowField(field).value, IsRestricted(field))
  {
    if IsRestricted(field) {
      var upper := Upper(field);
      match SplitOnce(upper, '#')
      case Some((wd, nth)) => NthIsCanonical(wd, nth);
      case None =>
        if upper != [] && upper[|upper| - 1] == 'L' {
          LastIsCanonical(upper[..|upper| - 1]);
        } else {
          WeekdayListCanonical(field, if upper == "?" || upper == "*" then Plain else WeekdayField);
        }
    } else {
      OpenWeekdays(field);
      WeekdayListCanonical(field, Plain);
    }
  }

  lemma FieldsCanonical(sec: string, min: string, hour: string, dom: string, month: string, dow: string,
                        year: Option<string>)
    ensures var e := ParseFields(sec, min, hour, dom, month, dow, year);
            e.Some? ==> Canonical(e.value)
  {
    FieldValuesInBounds(sec, 0, 59, Plain);
    FieldValuesInBounds(min, 0, 59, Plain);
    FieldValuesInBounds(hour, 0, 23, Plain);
    FieldValuesInBounds(month, 1, 12, MonthField);
    if year.Some? {
      FieldValuesInBounds(year.value, 1970, 2099, Plain);
    }
    ParsedDomCanonical(dom);
    ParsedDowCanonical(dow);
  }

  lemma ParsedIsCanonical(expr: string)
    ensures ParseExpr(expr).Some? ==> Canonical(ParseExpr(expr).value)
  {
    var f := Words(expr);
    if |f| == 5 {
      FieldsCanonical("0", f[0], f[1], f[2], f[3], f[4], None);
    } else if |f| == 6 {
      FieldsCanonical(f[0], f[1], f[2], f[3], f[4], f[5], None);
    } else if |f| == 7 {
      FieldsCanonical(f[0], f[1], f[2], f[3], f[4], f[5], Some(f[6]));
    }
  }

  /** Printing a parsed expression and parsing it again gives it back. */
  lemma ParsedRoundTrip(expr: string)
    requires ParseExpr(expr).Some?
    ensures Canonical(ParseExpr(expr).value)
    ensures ParseExpr(PrintCron(Written(ParseExpr(expr).value))) == ParseExpr(expr)
  {
    ParsedIsCanonical(expr);
    WrittenMeans(ParseExpr(expr).value);
    WrittenIsGood(ParseExpr(expr).value);
    CronRoundTrip(Written(ParseExpr(expr).value));
  }
}
