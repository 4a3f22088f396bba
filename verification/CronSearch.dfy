/**
The bounded search for the next run of a cron expression, over a local clock that runs at a fixed
offset (in whole seconds) from UTC. Instants are nanoseconds since the epoch.
 */
module CronSearch {
  import opened Core
  import opened CronMatching

  const NANOS := 1_000_000_000

  /** The search steps by minutes when second 0 is the only one listed, by seconds otherwise. */
  predicate BySeconds(e: CronExpr) {
    e.seconds != [0]
  }

  function Step(e: CronExpr): int {
    if BySeconds(e) then 1 else 60
  }

  function MaxTicks(e: CronExpr): int {
    if BySeconds(e) then 2 * 366 * 24 * 60 * 60 else 6 * 366 * 24 * 60
  }

  function FirstTick(e: CronExpr, localAfter: int): int {
    if BySeconds(e) then localAfter + 1 else localAfter - localAfter % 60 + 60
  }

  function LastTick(e: CronExpr, localAfter: int): int {
    FirstTick(e, localAfter) + (if BySeconds(e) then MaxTicks(e) - 1 else 60 * (MaxTicks(e) - 1))
  }

  function LocalSeconds(offset: int, instant: int): int {
    instant / NANOS + offset
  }

  /** `instant` is a whole second whose local time the expression matches. */
  predicate Fires(e: CronExpr, offset: int, instant: int) {
    instant % NANOS == 0 && MatchesLocal(e, LocalSeconds(offset, instant))
  }

  /** The last instant the search looks at. */
  function SearchEnd(e: CronExpr, offset: int, after: int): int {
    (LastTick(e, LocalSeconds(offset, after)) - offset) * NANOS
  }

  ghost predicate Exhausted(e: CronExpr, offset: int, after: int) {
    forall x :: after < x <= SearchEnd(e, offset, after) ==> !Fires(e, offset, x)
  }

  // ---------------------------------------------------------------------------
  // The search
  // ---------------------------------------------------------------------------

  ghost predicate NoMatchBetween(e: CronExpr, lo: int, hi: int) {
    forall t :: lo < t < hi ==> !MatchesLocal(e, t)
  }

  /** Stepping from one tick to the next passes over no matching second. */
  lemma StepSkipsNothing(e: CronExpr, tick: int)
    requires !BySeconds(e) ==> tick % 60 == 0
    ensures NoMatchBetween(e, tick, tick + Step(e))
  {
  }

  lemma OneMoreTick(e: CronExpr, lo: int, tick: int)
    requires NoMatchBetween(e, lo, tick) && !MatchesLocal(e, tick) && (!BySeconds(e) ==> tick % 60 == 0)
    ensures NoMatchBetween(e, lo, tick + Step(e))
  {
    StepSkipsNothing(e, tick);
  }

  /** What holds of local seconds holds of instants. */
  lemma NoFireBetween(e: CronExpr, offset: int, after: int, hi: int)
    requires NoMatchBetween(e, LocalSeconds(offset, after), hi)
    ensures forall x :: after < x < (hi - offset) * NANOS ==> !Fires(e, offset, x)
  {
    forall x | after < x < (hi - offset) * NANOS && x % NANOS == 0
      ensures !Fires(e, offset, x)
    {
      assert after / NANOS < x / NANOS < hi - offset;
    }
  }

  function Tick(e: CronExpr, localAfter: int, i: int): int {
    FirstTick(e, localAfter) + (if BySeconds(e) then i else 60 * i)
  }

  lemma TicksAscend(e: CronExpr, localAfter: int, i: int)
    requires 0 <= i < MaxTicks(e)
    ensures Tick(e, localAfter, i + 1) == Tick(e, localAfter, i) + Step(e)
    ensures localAfter < Tick(e, localAfter, i) <= LastTick(e, localAfter)
    ensures !BySeconds(e) ==> Tick(e, localAfter, i) % 60 == 0
    ensures i + 1 == MaxTicks(e) ==> Tick(e, localAfter, i + 1) > LastTick(e, localAfter)
  {
  }

  lemma Narrower(e: CronExpr, lo: int, hi: int, less: int)
    requires NoMatchBetween(e, lo, hi) && less <= hi
    ensures NoMatchBetween(e, lo, less)
  {
  }

  lemma NothingBefore(e: CronExpr, localAfter: int)
    ensures NoMatchBetween(e, localAfter, Tick(e, localAfter, 0))
  {
    if !BySeconds(e) {
      StepSkipsNothing(e, localAfter - localAfter % 60);
    }
  }

  /** The tick loop, in local seconds: the first match among the ticks, or none if none matches. */
  method Scan(e: CronExpr, localAfter: int) returns (r: Option<int>)
    ensures r.Some? ==>
              && localAfter < r.value <= LastTick(e, localAfter)
              && MatchesLocal(e, r.value)
              && NoMatchBetween(e, localAfter, r.value)
    ensures r.None? ==> NoMatchBetween(e, localAfter, LastTick(e, localAfter) + 1)
  {
    var candidate := FirstTick(e, localAfter);
    var i := 0;
    NothingBefore(e, localAfter);
    while i < MaxTicks(e)
      invariant 0 <= i <= MaxTicks(e)
      invariant candidate == Tick(e, localAfter, i)
      invariant NoMatchBetween(e, localAfter, candidate)
    {
      TicksAscend(e, localAfter, i);
      if MatchesLocal(e, candidate) {
        return Some(candidate);
      }
      OneMoreTick(e, localAfter, candidate);
      candidate := candidate + Step(e);
      i := i + 1;
    }
    TicksAscend(e, localAfter, i - 1);
    Narrower(e, localAfter, candidate, LastTick(e, localAfter) + 1);
    r := None;
  }

  /** A whole second at which the local clock shows a listed time of day on one of the expression's
      days. */
  ghost predicate Due(e: CronExpr, offset: int, x: int) {
    x % NANOS == 0 && ReadsClock(e, x / NANOS + offset) && OnDate(e, (x / NANOS + offset) / 86400)
  }

  lemma FiresExactly(e: CronExpr, offset: int, x: int)
    ensures Fires(e, offset, x) <==> Due(e, offset, x)
  {
    MatchesExactly(e, x / NANOS + offset);
  }

  /** The result is the first instant after `after` at which a run is due, as long as it lies within the
      search bound; there is no result exactly when nothing is due up to the bound. */
  method NextAfter(e: CronExpr, offset: int, after: int) returns (r: Option<int>)
    ensures r.None? <==> forall x :: after < x <= SearchEnd(e, offset, after) ==> !Due(e, offset, x)
    ensures r.None? <==> Exhausted(e, offset, after)
    ensures r.Some? ==>
              && after < r.value <= SearchEnd(e, offset, after)
              && Due(e, offset, r.value)
              && forall x :: after < x < r.value ==> !Due(e, offset, x)
  {
    forall x
      ensures Fires(e, offset, x) <==> Due(e, offset, x)
    {
      FiresExactly(e, offset, x);
    }
    r := FirstFire(e, offset, after);
  }

  method FirstFire(e: CronExpr, offset: int, after: int) returns (r: Option<int>)
    ensures r.None? <==> Exhausted(e, offset, after)
    ensures r.Some? ==>
              && after < r.value <= SearchEnd(e, offset, after)
              && Fires(e, offset, r.value)
              && forall x :: after < x < r.value ==> !Fires(e, offset, x)
  {
    var localAfter := LocalSeconds(offset, after);
    var found := Scan(e, localAfter);
    match found {
      case Some(t) =>
        FireAt(e, offset, after, t);
        NoFireBetween(e, offset, after, t);
        r := Some((t - offset) * NANOS);
      case None =>
        NoFireBetween(e, offset, after, LastTick(e, localAfter) + 1);
        r := None;
    }
  }

  lemma FireAt(e: CronExpr, offset: int, after: int, t: int)
    requires LocalSeconds(offset, after) < t && MatchesLocal(e, t)
    ensures after < (t - offset) * NANOS && Fires(e, offset, (t - offset) * NANOS)
  {
    assert LocalSeconds(offset, (t - offset) * NANOS) == t;
  }
}
