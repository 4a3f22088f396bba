/** Regular expressions over characters, with the usual meaning. */
module Regex {
  import opened Text

  datatype Regex =
    | Empty
    | Class(chars: set<char>)
    | Cat(left: Regex, right: Regex)
    | Alt(left: Regex, right: Regex)

  ghost predicate Matches(r: Regex, s: string)
    decreases r, 1
  {
    match r
    case Empty => s == []
    case Class(chars) => |s| == 1 && s[0] in chars
    case Cat(_, _) => exists i :: SplitsAt(r, s, i)
    case Alt(a, b) => Matches(a, s) || Matches(b, s)
  }

  /** `s` falls into a match of the left part and a match of the right part at position `i`. */
  ghost predicate SplitsAt(r: Regex, s: string, i: int)
    requires r.Cat?
    decreases r, 0
  {
    0 <= i <= |s| && Matches(r.left, s[..i]) && Matches(r.right, s[i..])
  }

  function Maybe(r: Regex): Regex {
    Alt(Empty, r)
  }

  function Times(r: Regex, n: nat): Regex {
    if n == 0 then Empty else Cat(r, Times(r, n - 1))
  }

  lemma CatIntro(a: Regex, b: Regex, x: string, y: string)
    requires Matches(a, x) && Matches(b, y)
    ensures Matches(Cat(a, b), x + y)
  {
    assert (x + y)[..|x|] == x && (x + y)[|x|..] == y;
    assert SplitsAt(Cat(a, b), x + y, |x|);
  }

  lemma CatElim(a: Regex, b: Regex, s: string) returns (x: string, y: string)
    requires Matches(Cat(a, b), s)
    ensures s == x + y && Matches(a, x) && Matches(b, y)
  {
    var i :| SplitsAt(Cat(a, b), s, i);
    x, y := s[..i], s[i..];
  }

  lemma CatEmpty(b: Regex, s: string)
    ensures Matches(Cat(Empty, b), s) <==> Matches(b, s)
  {
    if Matches(Cat(Empty, b), s) {
      var x, y := CatElim(Empty, b, s);
      assert s == y;
    }
    if Matches(b, s) {
      CatIntro(Empty, b, [], s);
      assert [] + s == s;
    }
  }

  lemma CatClass(chars: set<char>, b: Regex, s: string)
    ensures Matches(Cat(Class(chars), b), s) <==> s != [] && s[0] in chars && Matches(b, s[1..])
  {
    if Matches(Cat(Class(chars), b), s) {
      var x, y := CatElim(Class(chars), b, s);
      assert s[1..] == y;
    }
    if s != [] && s[0] in chars && Matches(b, s[1..]) {
      CatIntro(Class(chars), b, [s[0]], s[1..]);
      assert [s[0]] + s[1..] == s;
    }
  }

  lemma CatAlt(a: Regex, b: Regex, c: Regex, s: string)
    ensures Matches(Cat(Alt(a, b), c), s) <==> Matches(Cat(a, c), s) || Matches(Cat(b, c), s)
  {
    if Matches(Cat(Alt(a, b), c), s) {
      var x, y := CatElim(Alt(a, b), c, s);
      if Matches(a, x) {
        CatIntro(a, c, x, y);
      } else {
        CatIntro(b, c, x, y);
      }
    }
    if Matches(Cat(a, c), s) {
      var x, y := CatElim(a, c, s);
      CatIntro(Alt(a, b), c, x, y);
    }
    if Matches(Cat(b, c), s) {
      var x, y := CatElim(b, c, s);
      CatIntro(Alt(a, b), c, x, y);
    }
  }

  lemma CatMaybe(a: Regex, c: Regex, s: string)
    ensures Matches(Cat(Maybe(a), c), s) <==> Matches(c, s) || Matches(Cat(a, c), s)
  {
    CatAlt(Empty, a, c, s);
    CatEmpty(c, s);
  }

  lemma CatAssoc(a: Regex, b: Regex, c: Regex, s: string)
    ensures Matches(Cat(Cat(a, b), c), s) <==> Matches(Cat(a, Cat(b, c)), s)
  {
    if Matches(Cat(Cat(a, b), c), s) {
      var xy, z := CatElim(Cat(a, b), c, s);
      var x, y := CatElim(a, b, xy);
      CatIntro(b, c, y, z);
      CatIntro(a, Cat(b, c), x, y + z);
      assert x + (y + z) == s;
    }
    if Matches(Cat(a, Cat(b, c)), s) {
      var x, yz := CatElim(a, Cat(b, c), s);
      var y, z := CatElim(b, c, yz);
      CatIntro(a, b, x, y);
      CatIntro(Cat(a, b), c, x + y, z);
      assert x + y + z == s;
    }
  }

  ghost predicate AllIn(s: string, chars: set<char>) {
    forall i :: 0 <= i < |s| ==> s[i] in chars
  }

  lemma AllInTail(s: string, chars: set<char>)
    requires s != []
    ensures AllIn(s, chars) <==> s[0] in chars && AllIn(s[1..], chars)
  {
    assert s == [s[0]] + s[1..];
  }

  lemma {:induction false} CatTimes(chars: set<char>, n: nat, b: Regex, s: string)
    ensures Matches(Cat(Times(Class(chars), n), b), s) <==>
            n <= |s| && AllIn(s[..n], chars) && Matches(b, s[n..])
  {
    if n == 0 {
      CatEmpty(b, s);
      assert s[0..] == s;
    } else {
      CatAssoc(Class(chars), Times(Class(chars), n - 1), b, s);
      CatClass(chars, Cat(Times(Class(chars), n - 1), b), s);
      if s != [] {
        CatTimes(chars, n - 1, b, s[1..]);
        if n <= |s| {
          assert s[1..][n - 1..] == s[n..];
          AllInTail(s[..n], chars);
          assert s[..n][1..] == s[1..][..n - 1];
        }
      }
    }
  }

  /** An upper bound on the whitespace in any string the expression matches. */
  function MaxWhitespace(r: Regex): nat {
    match r
    case Empty => 0
    case Class(chars) => if exists c :: c in chars && IsWhitespace(c) then 1 else 0
    case Cat(a, b) => MaxWhitespace(a) + MaxWhitespace(b)
    case Alt(a, b) => if MaxWhitespace(a) >= MaxWhitespace(b) then MaxWhitespace(a) else MaxWhitespace(b)
  }

  lemma {:induction false} WhitespaceBounded(r: Regex, s: string)
    requires Matches(r, s)
    ensures CountWhitespace(s) <= MaxWhitespace(r)
  {
    match r
    case Empty =>
    case Class(_) =>
      assert CountWhitespace(s[1..]) == 0;
    case Cat(a, b) =>
      var x, y := CatElim(a, b, s);
      WhitespaceBounded(a, x);
      WhitespaceBounded(b, y);
      CountWhitespaceConcat(x, y);
    case Alt(a, b) =>
      if Matches(a, s) {
        WhitespaceBounded(a, s);
      } else {
        WhitespaceBounded(b, s);
      }
  }

  /** No match is empty. */
  predicate AlwaysSome(r: Regex) {
    match r
    case Empty => false
    case Class(_) => true
    case Cat(a, b) => AlwaysSome(a) || AlwaysSome(b)
    case Alt(a, b) => AlwaysSome(a) && AlwaysSome(b)
  }

  /** No match ends in whitespace. */
  predicate EndsInked(r: Regex) {
    MaxWhitespace(r) == 0 ||
    match r
    case Empty => true
    case Class(_) => false
    case Cat(a, b) => EndsInked(b) && (AlwaysSome(b) || EndsInked(a))
    case Alt(a, b) => EndsInked(a) && EndsInked(b)
  }

  lemma {:induction false} AlwaysSomeMatches(r: Regex, s: string)
    requires Matches(r, s) && AlwaysSome(r)
    ensures s != []
  {
    match r
    case Class(_) =>
    case Cat(a, b) =>
      var x, y := CatElim(a, b, s);
      if AlwaysSome(a) {
        AlwaysSomeMatches(a, x);
      } else {
        AlwaysSomeMatches(b, y);
      }
    case Alt(a, b) =>
      if Matches(a, s) {
        AlwaysSomeMatches(a, s);
      } else {
        AlwaysSomeMatches(b, s);
      }
  }

  lemma {:induction false} EndsInkedMatches(r: Regex, s: string)
    requires Matches(r, s) && EndsInked(r) && s != []
    ensures !IsWhitespace(s[|s| - 1])
  {
    if MaxWhitespace(r) == 0 {
      WhitespaceBounded(r, s);
      NoWhitespaceAt(s, |s| - 1);
    } else if r.Cat? {
      var x, y := CatElim(r.left, r.right, s);
      if AlwaysSome(r.right) {
        AlwaysSomeMatches(r.right, y);
      }
      if y != [] {
        EndsInkedMatches(r.right, y);
      } else {
        EndsInkedMatches(r.left, x);
      }
    } else if Matches(r.left, s) {
      EndsInkedMatches(r.left, s);
    } else {
      EndsInkedMatches(r.right, s);
    }
  }
}

/** Telling one-shot timestamps from cron expressions. */
module OneShot {
  import opened Text
  import opened Regex

  const DIGITS: set<char> := {'0', '1', '2', '3', '4', '5', '6', '7', '8', '9'}

  // The documented pattern
  //   \d{4}-\d{2}-\d{2}(?:[T ]\d{2}:\d{2}(?::\d{2}(?:\.\d{1,3})?)?(?:Z|[+-]\d{2}:\d{2})?)?

  function Digits(n: nat): Regex { Times(Class(DIGITS), n) }

  function Offset(): Regex { Cat(Class({'+', '-'}), Cat(Digits(2), Cat(Class({':'}), Digits(2)))) }
  function Zone(): Regex { Maybe(Alt(Class({'Z'}), Offset())) }
  function FractionDigits(): Regex { Alt(Digits(1), Alt(Digits(2), Digits(3))) }
  function Fraction(): Regex { Cat(Class({'.'}), FractionDigits()) }
  function Seconds(): Regex { Cat(Class({':'}), Cat(Digits(2), Maybe(Fraction()))) }
  function Time(): Regex {
    Cat(Class({'T', ' '}), Cat(Digits(2), Cat(Class({':'}), Cat(Digits(2), Cat(Maybe(Seconds()), Zone())))))
  }
  function Pattern(): Regex {
    Cat(Digits(4), Cat(Class({'-'}), Cat(Digits(2), Cat(Class({'-'}), Cat(Digits(2), Maybe(Time()))))))
  }

  method TakeDigits(s: string, start: nat, n: nat) returns (ok: bool, i: nat)
    requires start <= |s|
    ensures ok <==> start + n <= |s| && AllIn(s[start..][..n], DIGITS)
    ensures ok ==> i == start + n
    ensures i <= |s|
  {
    i := start;
    var k := 0;
    while k < n
      invariant 0 <= k <= n && i == start + k <= |s|
      invariant AllIn(s[start..][..k], DIGITS)
    {
      if i < |s| && IsDigit(s[i]) {
        assert s[start..][..k + 1] == s[start..][..k] + [s[i]];
        i := i + 1;
      } else {
        if start + n <= |s| {
          assert s[start..][..n][k] == s[i];
        }
        return false, i;
      }
      k := k + 1;
    }
    ok := true;
  }

  method TakeLit(s: string, start: nat, lit: char) returns (ok: bool, i: nat)
    requires start <= |s|
    ensures ok <==> start < |s| && s[start] == lit
    ensures i == if ok then start + 1 else start
  {
    ok := start < |s| && s[start] == lit;
    i := if ok then start + 1 else start;
  }

  /** Recognising `n` digits and going on after them. */
  lemma AfterDigits(s: string, i: nat, n: nat, rest: Regex)
    requires i <= |s|
    ensures Matches(Cat(Digits(n), rest), s[i..]) <==>
            i + n <= |s| && AllIn(s[i..][..n], DIGITS) && Matches(rest, s[i + n..])
  {
    CatTimes(DIGITS, n, rest, s[i..]);
    if i + n <= |s| {
      assert s[i..][n..] == s[i + n..];
    }
  }

  /** Recognising one character and going on after it. */
  lemma AfterClass(s: string, i: nat, chars: set<char>, rest: Regex)
    requires i <= |s|
    ensures Matches(Cat(Class(chars), rest), s[i..]) <==> i < |s| && s[i] in chars && Matches(rest, s[i + 1..])
  {
    CatClass(chars, rest, s[i..]);
    if i < |s| {
      assert s[i..][1..] == s[i + 1..];
    }
  }

  lemma ExactlyDigits(s: string, n: nat)
    ensures Matches(Digits(n), s) <==> |s| == n && AllIn(s, DIGITS)
  {
    CatTimes(DIGITS, n, Empty, s);
    if Matches(Digits(n), s) {
      CatIntro(Digits(n), Empty, s, []);
      assert s + [] == s;
    }
    if Matches(Cat(Digits(n), Empty), s) {
      var x, y := CatElim(Digits(n), Empty, s);
      assert x == s;
    }
    if n == |s| {
      assert s[..n] == s;
    }
  }

  /** Takes `n` digits in front of whatever is to follow. */
  method PassDigits(s: string, start: nat, n: nat, ghost rest: Regex) returns (ok: bool, i: nat)
    requires start <= |s|
    ensures i <= |s|
    ensures Matches(Cat(Digits(n), rest), s[start..]) <==> ok && Matches(rest, s[i..])
  {
    AfterDigits(s, start, n, rest);
    ok, i := TakeDigits(s, start, n);
  }

  method PassLit(s: string, start: nat, lit: char, ghost rest: Regex) returns (ok: bool, i: nat)
    requires start <= |s|
    ensures i <= |s|
    ensures Matches(Cat(Class({lit}), rest), s[start..]) <==> ok && Matches(rest, s[i..])
  {
    AfterClass(s, start, {lit}, rest);
    ok, i := TakeLit(s, start, lit);
  }

  method LastDigits(s: string, start: nat, n: nat) returns (b: bool)
    requires start <= |s|
    ensures b <==> Matches(Digits(n), s[start..])
  {
    ExactlyDigits(s[start..], n);
    var ok, i := TakeDigits(s, start, n);
    if ok && i == |s| {
      assert s[start..][..n] == s[start..];
    }
    b := ok && i == |s|;
  }

  /** The four digits of an offset, after its sign. */
  method OffsetToEnd(s: string, start: nat) returns (b: bool)
    requires start <= |s|
    ensures b <==> Matches(Cat(Digits(2), Cat(Class({':'}), Digits(2))), s[start..])
  {
    var ok, i := PassDigits(s, start, 2, Cat(Class({':'}), Digits(2)));
    if !ok { return false; }
    ok, i := PassLit(s, i, ':', Digits(2));
    if !ok { return false; }
    b := LastDigits(s, i, 2);
  }

  lemma ZoneCases(s: string, start: nat)
    requires start < |s|
    ensures Matches(Zone(), s[start..]) <==>
              (s[start] == 'Z' && start + 1 == |s|)
              || ((s[start] == '+' || s[start] == '-')
                  && Matches(Cat(Digits(2), Cat(Class({':'}), Digits(2))), s[start + 1..]))
  {
    var rest := s[start..];
    assert rest != [] && rest[0] == s[start];
    assert Matches(Zone(), rest) <==> Matches(Alt(Class({'Z'}), Offset()), rest);
    AfterClass(s, start, {'+', '-'}, Cat(Digits(2), Cat(Class({':'}), Digits(2))));
  }

  /** The optional time zone, up to the end of the string. */
  method ZoneToEnd(s: string, start: nat) returns (b: bool)
    requires start <= |s|
    ensures b <==> Matches(Zone(), s[start..])
  {
    if start == |s| {
      assert s[start..] == [];
      return true;
    }
    ZoneCases(s, start);
    if s[start] == 'Z' {
      return start + 1 == |s|;
    } else if s[start] == '+' || s[start] == '-' {
      b := OffsetToEnd(s, start + 1);
      return;
    }
    b := false;
  }

  /** Whether a match of the zone can start at position `i`: at the end, or at `Z`, `+` or `-`. */
  lemma ZoneStarts(s: string)
    requires Matches(Zone(), s) && s != []
    ensures s[0] in {'Z', '+', '-'}
  {
    assert Matches(Alt(Class({'Z'}), Offset()), s);
    CatClass({'+', '-'}, Cat(Digits(2), Cat(Class({':'}), Digits(2))), s);
  }

  /** The optional fraction, then the zone. The fraction is taken greedily. */
  method FractionToEnd(s: string, start: nat) returns (b: bool)
    requires start <= |s|
    ensures b <==> Matches(Cat(Maybe(Fraction()), Zone()), s[start..])
  {
    FractionSplit(s, start);
    var ok, i := TakeLit(s, start, '.');
    if ok {
      b := DigitsToEnd(s, i);
    } else {
      b := ZoneToEnd(s, i);
    }
  }

  /** One to three digits, then the zone. */
  method DigitsToEnd(s: string, start: nat) returns (b: bool)
    requires start <= |s|
    ensures b <==> SomeFraction(s, start)
  {
    var frac := CountDigits(s, start);
    b := AfterFraction(s, start + frac, frac);
    GreedyFraction(s, start, frac);
  }

  method AfterFraction(s: string, start: nat, frac: nat) returns (b: bool)
    requires start <= |s|
    ensures b <==> frac > 0 && Matches(Zone(), s[start..])
  {
    if frac == 0 {
      return false;
    }
    b := ZoneToEnd(s, start);
  }

  /** `frac` is as many digits as there are, three at most. */
  ghost predicate TakesAll(s: string, start: nat, frac: nat) {
    && frac <= 3 && start + frac <= |s| && AllIn(s[start..][..frac], DIGITS)
    && (frac == 3 || start + frac == |s| || !IsDigit(s[start + frac]))
  }

  /** The digits at `start`, three at most. */
  method CountDigits(s: string, start: nat) returns (frac: nat)
    requires start <= |s|
    ensures TakesAll(s, start, frac)
  {
    frac := 0;
    while frac < 3 && start + frac < |s| && IsDigit(s[start + frac])
      invariant 0 <= frac <= 3 && start + frac <= |s|
      invariant AllIn(s[start..][..frac], DIGITS)
    {
      assert s[start..][..frac + 1] == s[start..][..frac] + [s[start + frac]];
      frac := frac + 1;
    }
  }

  lemma OneToThreeDigits(s: string, i: nat)
    requires i <= |s|
    ensures Matches(Cat(FractionDigits(), Zone()), s[i..]) <==> SomeFraction(s, i)
  {
    ThreeWays(Digits(1), Digits(2), Digits(3), Zone(), s[i..]);
    AfterDigits(s, i, 1, Zone());
    AfterDigits(s, i, 2, Zone());
    AfterDigits(s, i, 3, Zone());
  }

  lemma ThreeWays(a: Regex, b: Regex, c: Regex, rest: Regex, s: string)
    ensures Matches(Cat(Alt(a, Alt(b, c)), rest), s) <==>
            Matches(Cat(a, rest), s) || Matches(Cat(b, rest), s) || Matches(Cat(c, rest), s)
  {
    CatAlt(a, Alt(b, c), rest, s);
    CatAlt(b, c, rest, s);
  }

  /** A fraction is a point and one to three digits; without one the zone starts right away. */
  lemma FractionSplit(s: string, i: nat)
    requires i <= |s|
    ensures Matches(Cat(Maybe(Fraction()), Zone()), s[i..]) <==>
            if i < |s| && s[i] == '.' then SomeFraction(s, i + 1) else Matches(Zone(), s[i..])
  {
    CatMaybe(Fraction(), Zone(), s[i..]);
    CatAssoc(Class({'.'}), FractionDigits(), Zone(), s[i..]);
    AfterClass(s, i, {'.'}, Cat(FractionDigits(), Zone()));
    if i < |s| && s[i] == '.' {
      OneToThreeDigits(s, i + 1);
      if Matches(Zone(), s[i..]) {
        ZoneStarts(s[i..]);
      }
    }
  }

  ghost predicate DigitsThenZone(s: string, i: nat, n: nat) {
    i + n <= |s| && AllIn(s[i..][..n], DIGITS) && Matches(Zone(), s[i + n..])
  }

  lemma DigitAt(s: string, i: nat, n: nat, j: nat)
    requires i + n <= |s| && AllIn(s[i..][..n], DIGITS) && j < n
    ensures IsDigit(s[i + j])
  {
    assert s[i..][..n][j] == s[i + j];
  }

  ghost predicate SomeFraction(s: string, i: nat) {
    DigitsThenZone(s, i, 1) || DigitsThenZone(s, i, 2) || DigitsThenZone(s, i, 3)
  }

  /** Since no zone starts with a digit, only the greedy number of digits can work. */
  lemma GreedyFraction(s: string, i: nat, frac: nat)
    requires TakesAll(s, i, frac)
    ensures SomeFraction(s, i) <==>
            frac > 0 && Matches(Zone(), s[i + frac..])
  {
    forall n | 1 <= n <= 3 && DigitsThenZone(s, i, n)
      ensures n == frac
    {
      if n < frac {
        DigitAt(s, i, frac, n);
        ZoneStarts(s[i + n..]);
      }
      if frac < n {
        DigitAt(s, i, n, frac);
      }
    }
    if frac > 0 && Matches(Zone(), s[i + frac..]) {
      assert DigitsThenZone(s, i, frac);
    }
  }

  /** The optional seconds, then the zone. */
  method SecondsToEnd(s: string, start: nat) returns (b: bool)
    requires start <= |s|
    ensures b <==> Matches(Cat(Maybe(Seconds()), Zone()), s[start..])
  {
    CatMaybe(Seconds(), Zone(), s[start..]);
    var tail := Cat(Digits(2), Maybe(Fraction()));
    CatAssoc(Class({':'}), tail, Zone(), s[start..]);
    AfterClass(s, start, {':'}, Cat(tail, Zone()));
    var ok, i := TakeLit(s, start, ':');
    if ok {
      if Matches(Zone(), s[start..]) {
        ZoneStarts(s[start..]);
      }
      CatAssoc(Digits(2), Maybe(Fraction()), Zone(), s[i..]);
      AfterDigits(s, i, 2, Cat(Maybe(Fraction()), Zone()));
      ok, i := TakeDigits(s, i, 2);
      if !ok { return false; }
      b := FractionToEnd(s, i);
    } else {
      b := ZoneToEnd(s, i);
    }
  }

  /** Accepts exactly the strings of the documented pattern. */
  method LooksLikeOneShot(s: string) returns (b: bool)
    ensures b <==> Matches(Pattern(), s)
  {
    assert s[0..] == s;
    ghost var r1 := Cat(Digits(2), Maybe(Time()));
    ghost var r2 := Cat(Class({'-'}), r1);
    ghost var r3 := Cat(Digits(2), r2);
    var ok, i := PassDigits(s, 0, 4, Cat(Class({'-'}), r3));
    if !ok { return false; }
    ok, i := PassLit(s, i, '-', r3);
    if !ok { return false; }
    ok, i := PassDigits(s, i, 2, r2);
    if !ok { return false; }
    ok, i := PassLit(s, i, '-', r1);
    if !ok { return false; }
    ok, i := PassDigits(s, i, 2, Maybe(Time()));
    if !ok { return false; }
    b := TimeToEnd(s, i);
  }

  function AfterSeparator(): Regex {
    Cat(Digits(2), Cat(Class({':'}), Cat(Digits(2), Cat(Maybe(Seconds()), Zone()))))
  }

  lemma TimeStarts(s: string, start: nat)
    requires start < |s|
    ensures Matches(Maybe(Time()), s[start..]) <==>
            (s[start] == 'T' || s[start] == ' ') && Matches(AfterSeparator(), s[start + 1..])
  {
    assert s[start..] != [];
    assert Matches(Maybe(Time()), s[start..]) <==> Matches(Time(), s[start..]);
    AfterClass(s, start, {'T', ' '}, AfterSeparator());
  }

  method ClockToEnd(s: string, start: nat) returns (b: bool)
    requires start <= |s|
    ensures b <==> Matches(AfterSeparator(), s[start..])
  {
    ghost var r1 := Cat(Maybe(Seconds()), Zone());
    ghost var r2 := Cat(Digits(2), r1);
    var ok, i := PassDigits(s, start, 2, Cat(Class({':'}), r2));
    if !ok { return false; }
    ok, i := PassLit(s, i, ':', r2);
    if !ok { return false; }
    ok, i := PassDigits(s, i, 2, r1);
    if !ok { return false; }
    b := SecondsToEnd(s, i);
  }

  /** The optional time of day, up to the end of the string. */
  method TimeToEnd(s: string, start: nat) returns (b: bool)
    requires start <= |s|
    ensures b <==> Matches(Maybe(Time()), s[start..])
  {
    if start == |s| {
      assert s[start..] == [];
      return true;
    }
    TimeStarts(s, start);
    if s[start] != 'T' && s[start] != ' ' {
      return false;
    }
    b := ClockToEnd(s, start + 1);
  }

  /** A one-shot timestamp contains at most one space, so it is at most two words. */
  lemma OneShotIsShort(s: string)
    requires Matches(Pattern(), s)
    ensures |Words(s)| <= 2
  {
    WhitespaceBounded(Pattern(), s);
    PatternWhitespace();
    WordsBound(s);
  }

  /** A one-shot timestamp neither starts nor ends with whitespace. */
  lemma OneShotIsInked(s: string)
    requires Matches(Pattern(), s)
    ensures s != [] && !IsWhitespace(s[0]) && !IsWhitespace(s[|s| - 1])
  {
    DigitFirst(4, Pattern().right, s);
    PatternEndsInked();
    EndsInkedMatches(Pattern(), s);
  }

  lemma DigitFirst(n: nat, rest: Regex, s: string)
    requires n > 0 && Matches(Cat(Digits(n), rest), s)
    ensures s != [] && !IsWhitespace(s[0])
  {
    CatTimes(DIGITS, n, rest, s);
    assert s[0] == s[..n][0];
  }

  lemma PatternEndsInked()
    ensures EndsInked(Pattern())
  {
    DigitsWhitespace(2);
    DigitsWhitespace(4);
    NoWhitespaceIn({'-'});
    NoWhitespaceIn({':'});
    SecondsWhitespace();
    ZoneWhitespace();
    assert AlwaysSome(AfterSeparator()) && MaxWhitespace(AfterSeparator()) == 0;
    assert EndsInked(Maybe(Time()));
    assert EndsInked(Digits(2));
    assert EndsInked(Cat(Digits(2), Maybe(Time())));
  }

  lemma NoWhitespaceIn(chars: set<char>)
    requires chars <= DIGITS + {'-', '+', ':', '.', 'Z'}
    ensures MaxWhitespace(Class(chars)) == 0
  {
  }

  lemma {:induction false} DigitsWhitespace(n: nat)
    ensures MaxWhitespace(Digits(n)) == 0
  {
    NoWhitespaceIn(DIGITS);
    if n > 0 {
      DigitsWhitespace(n - 1);
    }
  }

  lemma ZoneWhitespace()
    ensures MaxWhitespace(Zone()) == 0
  {
    DigitsWhitespace(2);
    NoWhitespaceIn({':'});
    NoWhitespaceIn({'Z'});
    NoWhitespaceIn({'+', '-'});
    assert MaxWhitespace(Offset()) == 0;
  }

  lemma SecondsWhitespace()
    ensures MaxWhitespace(Seconds()) == 0
  {
    DigitsWhitespace(1);
    DigitsWhitespace(2);
    DigitsWhitespace(3);
    NoWhitespaceIn({':'});
    NoWhitespaceIn({'.'});
    assert MaxWhitespace(Fraction()) == 0;
  }

  lemma PatternWhitespace()
    ensures MaxWhitespace(Pattern()) <= 1
  {
    DigitsWhitespace(2);
    DigitsWhitespace(4);
    NoWhitespaceIn({'-'});
    NoWhitespaceIn({':'});
    ZoneWhitespace();
    SecondsWhitespace();
    assert MaxWhitespace(Time()) <= 1;
  }
}
