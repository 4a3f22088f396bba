/**
Which session ids the client knows: the live ones, the ones with a close in flight, and a bounded
queue of closed ones that makes closing twice harmless.
 */
module SessionLifecycle {
  import opened Core

  type SessionId = string

  /** `CLOSED_SESSION_ID_RETENTION_LIMIT` */
  const LIMIT := 2048

  /** `spawned` and `awaiting` count the detached close tasks before their first turn and while they
      wait for the sidecar; `hydrating` counts registrations waiting for their first state. */
  datatype State = State(
    live: set<SessionId>,
    closing: set<SessionId>,
    closed: seq<SessionId>,
    spawned: multiset<SessionId>,
    awaiting: multiset<SessionId>,
    hydrating: multiset<SessionId>)

  const INITIAL := State({}, {}, [], multiset{}, multiset{}, multiset{})

  datatype Step =
    | Register(id: SessionId)
    | HydrateDone(id: SessionId, ok: bool)
    | CloseSession(id: SessionId)
    | CloseTaskRuns(id: SessionId)
    | CloseTaskEnds(id: SessionId)
    | DestroyRuns(id: SessionId)

  predicate Known(s: State, id: SessionId) {
    id in s.live || id in s.closing || id in s.closed
  }

  /** `closed` without `id`. */
  function Without(closed: seq<SessionId>, id: SessionId): seq<SessionId> {
    if closed == [] then []
    else
      var front := Without(closed[..|closed| - 1], id);
      if closed[|closed| - 1] == id then front else front + [closed[|closed| - 1]]
  }

  /** Append an id and evict the oldest ones beyond the limit. */
  function Push(closed: seq<SessionId>, id: SessionId): seq<SessionId> {
    var all := closed + [id];
    if |all| > LIMIT then all[|all| - LIMIT..] else all
  }

  /** Whether the internal close of `id` takes effect, rather than returning early. */
  predicate Commits(s: State, id: SessionId) {
    id !in s.closed && id in s.live
  }

  function CloseInternal(s: State, id: SessionId): State {
    if Commits(s, id) then s.(live := s.live - {id}, closed := Push(s.closed, id)) else s
  }

  function Apply(s: State, step: Step): State {
    match step
    case Register(id) =>
      s.(closed := Without(s.closed, id), live := s.live + {id}, hydrating := s.hydrating + multiset{id})
    case HydrateDone(id, ok) =>
      if s.hydrating[id] == 0 then s
      else s.(hydrating := s.hydrating - multiset{id}, live := if ok then s.live else s.live - {id})
    case CloseSession(id) =>
      if !Known(s, id) then s else s.(closing := s.closing + {id}, spawned := s.spawned + multiset{id})
    case CloseTaskRuns(id) =>
      if s.spawned[id] == 0 then s
      else
        var t := s.(spawned := s.spawned - multiset{id});
        if Commits(s, id) then CloseInternal(t, id).(awaiting := s.awaiting + multiset{id})
        else t.(closing := s.closing - {id})
    case CloseTaskEnds(id) =>
      if s.awaiting[id] == 0 then s
      else s.(awaiting := s.awaiting - multiset{id}, closing := s.closing - {id})
    case DestroyRuns(id) => CloseInternal(s, id)
  }

  function Run(steps: seq<Step>): State {
    if steps == [] then INITIAL else Apply(Run(steps[..|steps| - 1]), steps[|steps| - 1])
  }

  // ---------------------------------------------------------------------------
  // Invariant
  // ---------------------------------------------------------------------------

  ghost predicate Inv(s: State) {
    && Distinct(s.closed)
    && |s.closed| <= LIMIT
    && (forall id :: id in s.closed ==> id !in s.live)
    && (forall id :: id in s.closing ==> s.spawned[id] + s.awaiting[id] > 0)
  }

  lemma {:induction false} WithoutMembers(closed: seq<SessionId>, id: SessionId)
    ensures forall x :: x in Without(closed, id) <==> x in closed && x != id
    ensures |Without(closed, id)| <= |closed|
  {
    if closed != [] {
      WithoutMembers(closed[..|closed| - 1], id);
      assert closed == closed[..|closed| - 1] + [closed[|closed| - 1]];
    }
  }

  lemma {:induction false} WithoutDistinct(closed: seq<SessionId>, id: SessionId)
    requires Distinct(closed)
    ensures Distinct(Without(closed, id))
  {
    if closed != [] {
      var front, last := closed[..|closed| - 1], closed[|closed| - 1];
      WithoutDistinct(front, id);
      WithoutMembers(front, id);
      assert last !in front;
      if last != id {
        DistinctAppend(Without(front, id), last);
      }
    }
  }

  lemma DistinctAppend(s: seq<SessionId>, x: SessionId)
    requires Distinct(s) && x !in s
    ensures Distinct(s + [x])
  {
  }

  lemma PushKeeps(closed: seq<SessionId>, id: SessionId)
    requires Distinct(closed) && |closed| <= LIMIT && id !in closed
    ensures Distinct(Push(closed, id)) && |Push(closed, id)| <= LIMIT
    ensures id in Push(closed, id)
    ensures forall x :: x in Push(closed, id) ==> x in closed || x == id
  {
    DistinctAppend(closed, id);
    var r := Push(closed, id);
    assert r[|r| - 1] == id;
  }

  lemma StepKeeps(s: State, step: Step)
    requires Inv(s)
    ensures Inv(Apply(s, step))
  {
    match step
    case Register(id) =>
      WithoutMembers(s.closed, id);
      WithoutDistinct(s.closed, id);
    case HydrateDone(_, _) =>
    case CloseSession(_) =>
    case CloseTaskRuns(id) => if Commits(s, id) { PushKeeps(s.closed, id); }
    case CloseTaskEnds(_) =>
    case DestroyRuns(id) => if Commits(s, id) { PushKeeps(s.closed, id); }
  }

  /** In every reachable state the closed ids are distinct, at most 2048 and not live, and an id is
      marked as closing only while a close task of it is around. */
  lemma {:induction false} RunKeeps(steps: seq<Step>)
    ensures Inv(Run(steps))
  {
    if steps != [] {
      RunKeeps(steps[..|steps| - 1]);
      StepKeeps(Run(steps[..|steps| - 1]), steps[|steps| - 1]);
    }
  }

  // ---------------------------------------------------------------------------
  // Staying known
  // ---------------------------------------------------------------------------

  /** The id a step puts into the closed queue, if any. */
  function Pushed(s: State, step: Step): Option<SessionId> {
    if (step.DestroyRuns? || (step.CloseTaskRuns? && s.spawned[step.id] > 0)) && Commits(s, step.id)
    then Some(step.id) else None
  }

  /** How many other sessions were closed since `id` was; none while it is live. */
  function LaterCloses(steps: seq<Step>, id: SessionId): nat {
    if steps == [] || id in Run(steps).live then 0
    else
      var before := steps[..|steps| - 1];
      match Pushed(Run(before), steps[|steps| - 1])
      case None => LaterCloses(before, id)
      case Some(x) => if x == id then 0 else LaterCloses(before, id) + 1
  }

  /** A failed hydration takes the live session away. */
  predicate Drops(s: State, step: Step, id: SessionId) {
    step == HydrateDone(id, false) && s.hydrating[id] > 0 && id in s.live
  }

  /** `id` was registered, and no failed hydration took it away since it last was. */
  predicate Kept(steps: seq<Step>, id: SessionId) {
    steps != [] &&
    var before, step := steps[..|steps| - 1], steps[|steps| - 1];
    step == Register(id) || (!Drops(Run(before), step, id) && Kept(before, id))
  }

  /** `id` sits in the queue with at most `later` ids behind it. */
  ghost predicate NearBack(closed: seq<SessionId>, id: SessionId, later: nat) {
    exists i :: 0 <= i < |closed| && closed[i] == id && |closed| - 1 - i <= later
  }

  lemma {:induction false} WithoutNearBack(closed: seq<SessionId>, id: SessionId, x: SessionId, later: nat)
    requires NearBack(closed, id, later) && x != id
    ensures NearBack(Without(closed, x), id, later)
  {
    var front, last := closed[..|closed| - 1], closed[|closed| - 1];
    var i :| 0 <= i < |closed| && closed[i] == id && |closed| - 1 - i <= later;
    if i == |closed| - 1 {
      var r := Without(closed, x);
      assert r[|r| - 1] == id;
    } else {
      assert front[i] == id && later > 0;
      WithoutNearBack(front, id, x, later - 1);
      var r := Without(front, x);
      var j :| 0 <= j < |r| && r[j] == id && |r| - 1 - j <= later - 1;
      if last == x {
        assert Without(closed, x) == r;
      } else {
        assert Without(closed, x)[j] == id;
      }
    }
  }

  lemma PushNearBack(closed: seq<SessionId>, id: SessionId, x: SessionId, later: nat)
    requires NearBack(closed, id, later) && later + 1 < LIMIT
    ensures NearBack(Push(closed, x), id, later + 1)
  {
    var i :| 0 <= i < |closed| && closed[i] == id && |closed| - 1 - i <= later;
    var all, r := closed + [x], Push(closed, x);
    var cut := |all| - |r|;
    assert i >= cut;
    assert r[i - cut] == id;
  }

  lemma JustPushed(closed: seq<SessionId>, id: SessionId)
    ensures NearBack(Push(closed, id), id, 0)
  {
    var r := Push(closed, id);
    assert r[|r| - 1] == id;
  }

  /** A session leaves the live ones only by being closed or by a failed hydration. */
  lemma LeavesLive(s: State, step: Step, id: SessionId)
    requires id in s.live && id !in Apply(s, step).live
    ensures Drops(s, step, id) || Pushed(s, step) == Some(id)
  {
  }

  /** A session that was kept is live, or near the back of the queue. */
  lemma {:induction false} LiveOrQueued(steps: seq<Step>, id: SessionId)
    requires Kept(steps, id) && LaterCloses(steps, id) < LIMIT
    ensures id in Run(steps).live || NearBack(Run(steps).closed, id, LaterCloses(steps, id))
  {
    if id !in Run(steps).live {
      var before, step := steps[..|steps| - 1], steps[|steps| - 1];
      var s := Run(before);
      var pushed := Pushed(s, step);
      if pushed == Some(id) {
        JustPushed(s.closed, id);
      } else {
        if id in s.live {
          LeavesLive(s, step, id);
        }
        LiveOrQueued(before, id);
        var later := LaterCloses(before, id);
        if step.Register? {
          WithoutNearBack(s.closed, id, step.id, later);
        } else if pushed.Some? {
          PushNearBack(s.closed, id, pushed.value, later);
        }
      }
    }
  }

  /** So closing it never reports it unknown, until 2048 other sessions were closed after it. */
  lemma StaysKnown(steps: seq<Step>, id: SessionId)
    requires Kept(steps, id) && LaterCloses(steps, id) < LIMIT
    ensures Known(Run(steps), id)
  {
    LiveOrQueued(steps, id);
  }

  /** Conversely only a session that was kept is live or among the closed ids. */
  lemma {:induction false} KnownWasKept(steps: seq<Step>, id: SessionId)
    requires id in Run(steps).live || id in Run(steps).closed
    ensures Kept(steps, id)
  {
    if steps != [] {
      var before, step := steps[..|steps| - 1], steps[|steps| - 1];
      var s := Run(before);
      RunKeeps(before);
      KnownBefore(s, step, id);
      if step != Register(id) {
        KnownWasKept(before, id);
      }
    }
  }

  lemma KnownBefore(s: State, step: Step, id: SessionId)
    requires id in Apply(s, step).live || id in Apply(s, step).closed
    ensures step == Register(id) || id in s.live || id in s.closed
  {
    if step.Register? {
      WithoutMembers(s.closed, step.id);
    }
  }

  /** A close that found its session keeps the id known until one of the id's close tasks moves on. */
  lemma {:induction false} ClosingUntilTask(before: seq<Step>, id: SessionId, after: seq<Step>)
    requires Known(Run(before), id)
    requires forall i :: 0 <= i < |after| ==> after[i] != CloseTaskRuns(id) && after[i] != CloseTaskEnds(id)
    ensures id in Run(before + [CloseSession(id)] + after).closing
    decreases |after|
  {
    var closed := before + [CloseSession(id)];
    if after == [] {
      assert closed + after == closed;
      OneMore(before, CloseSession(id));
    } else {
      var most, last := after[..|after| - 1], after[|after| - 1];
      assert forall i :: 0 <= i < |most| ==> most[i] == after[i];
      ClosingUntilTask(before, id, most);
      OneMore(closed + most, last);
      assert closed + after == closed + most + [last];
      StaysClosing(Run(closed + most), last, id);
    }
  }

  lemma OneMore(steps: seq<Step>, step: Step)
    ensures Run(steps + [step]) == Apply(Run(steps), step)
  {
    assert (steps + [step])[..|steps|] == steps;
  }

  lemma StaysClosing(s: State, step: Step, id: SessionId)
    requires id in s.closing && step != CloseTaskRuns(id) && step != CloseTaskEnds(id)
    ensures id in Apply(s, step).closing
  {
  }

  function PushAll(closed: seq<SessionId>, ids: seq<SessionId>): seq<SessionId> {
    if ids == [] then closed else Push(PushAll(closed, ids[..|ids| - 1]), ids[|ids| - 1])
  }

  lemma {:induction false} PushAllSuffix(closed: seq<SessionId>, ids: seq<SessionId>)
    requires |ids| > 0
    ensures var all := closed + ids; PushAll(closed, ids) == if |all| > LIMIT then all[|all| - LIMIT..] else all
  {
    var front, last := ids[..|ids| - 1], ids[|ids| - 1];
    assert closed + ids == closed + front + [last];
    if front == [] {
      assert closed + front == closed;
    } else {
      PushAllSuffix(closed, front);
    }
  }

  function DestroyAll(s: State, ids: seq<SessionId>): State {
    if ids == [] then s else Apply(DestroyAll(s, ids[..|ids| - 1]), DestroyRuns(ids[|ids| - 1]))
  }

  lemma {:induction false} PushAllMembers(closed: seq<SessionId>, ids: seq<SessionId>)
    ensures forall x :: x in PushAll(closed, ids) ==> x in closed || x in ids
  {
    if ids != [] {
      PushAllMembers(closed, ids[..|ids| - 1]);
    }
  }

  lemma {:induction false} DestroyAllCloses(s: State, ids: seq<SessionId>)
    requires Inv(s) && Distinct(ids) && forall i :: 0 <= i < |ids| ==> ids[i] in s.live
    ensures DestroyAll(s, ids) == s.(live := s.live - Elements(ids), closed := PushAll(s.closed, ids))
  {
    if ids != [] {
      var front, last := ids[..|ids| - 1], ids[|ids| - 1];
      DestroyAllCloses(s, front);
      PushAllMembers(s.closed, front);
      assert ids == front + [last];
      assert Elements(ids) == Elements(front) + {last};
    }
  }

  /** The bound is tight: closing 2048 others makes a closed session unknown. */
  lemma EvictedAtLimit(s: State, id: SessionId, others: seq<SessionId>)
    requires Inv(s) && id in s.closed && id !in s.closing
    requires |others| == LIMIT && Distinct(others) && forall i :: 0 <= i < |others| ==> others[i] in s.live
    ensures !Known(DestroyAll(s, others), id)
  {
    DestroyAllCloses(s, others);
    PushAllSuffix(s.closed, others);
    var all := s.closed + others;
    assert all[|all| - LIMIT..] == others;
  }

  // ---------------------------------------------------------------------------
  // The registry
  // ---------------------------------------------------------------------------

  /** `trace` are the steps so far, so everything proved of runs holds of the object. */
  class SessionRegistry {
    var live: set<SessionId>
    var closing: set<SessionId>
    var closed: seq<SessionId>
    var spawned: multiset<SessionId>
    var awaiting: multiset<SessionId>
    var hydrating: multiset<SessionId>
    ghost var trace: seq<Step>

    ghost function View(): State
      reads this
    {
      State(live, closing, closed, spawned, awaiting, hydrating)
    }

    ghost predicate Valid()
      reads this
    {
      View() == Run(trace)
    }

    constructor ()
      ensures Valid() && trace == []
    {
      live, closing, closed, trace := {}, {}, [], [];
      spawned, awaiting, hydrating := multiset{}, multiset{}, multiset{};
    }

    ghost method Took(step: Step)
      requires View() == Apply(Run(trace), step)
      modifies `trace
      ensures Valid() && trace == old(trace) + [step]
    {
      assert (trace + [step])[..|trace|] == trace;
      trace := trace + [step];
    }

    lemma Consistent()
      requires Valid()
      ensures Inv(View())
    {
      RunKeeps(trace);
    }

    method RegisterSession(id: SessionId)
      requires Valid()
      modifies this
      ensures View() == Apply(old(View()), Register(id))
      ensures Valid() && trace == old(trace) + [Register(id)]
    {
      var kept: seq<SessionId> := [];
      var i := 0;
      while i < |closed|
        invariant 0 <= i <= |closed| && kept == Without(closed[..i], id)
        invariant View() == old(View()) && trace == old(trace)
      {
        assert closed[..i + 1][..i] == closed[..i];
        if closed[i] != id {
          kept := kept + [closed[i]];
        }
        i := i + 1;
      }
      assert closed[..i] == closed;
      closed := kept;
      live := live + {id};
      hydrating := hydrating + multiset{id};
      Took(Register(id));
    }

    /** A session that was kept is found, until 2048 others were closed after it. */
    method CloseSession(id: SessionId) returns (found: bool)
      requires Valid()
      modifies this
      ensures found <==> Known(old(View()), id)
      ensures Kept(old(trace), id) && LaterCloses(old(trace), id) < LIMIT ==> found
      ensures View() == Apply(old(View()), Step.CloseSession(id))
      ensures Valid() && trace == old(trace) + [Step.CloseSession(id)]
    {
      found := id in live || id in closing || id in closed;
      if Kept(trace, id) && LaterCloses(trace, id) < LIMIT {
        StaysKnown(trace, id);
      }
      if found {
        closing := closing + {id};
        spawned := spawned + multiset{id};
      }
      Took(Step.CloseSession(id));
    }

    method FinishHydration(id: SessionId, ok: bool)
      requires Valid()
      modifies this
      ensures View() == Apply(old(View()), HydrateDone(id, ok))
      ensures Valid() && trace == old(trace) + [HydrateDone(id, ok)]
    {
      if hydrating[id] > 0 {
        hydrating := hydrating - multiset{id};
        if !ok {
          live := live - {id};
        }
      }
      Took(HydrateDone(id, ok));
    }

    /** A spawned close task gets its turn. */
    method RunCloseTask(id: SessionId)
      requires Valid()
      modifies this
      ensures View() == Apply(old(View()), CloseTaskRuns(id))
      ensures Valid() && trace == old(trace) + [CloseTaskRuns(id)]
    {
      if spawned[id] > 0 {
        StartClosing(id);
      }
      Took(CloseTaskRuns(id));
    }

    method StartClosing(id: SessionId)
      requires spawned[id] > 0
      modifies `live, `closing, `closed, `spawned, `awaiting
      ensures View() == Apply(old(View()), CloseTaskRuns(id))
    {
      spawned := spawned - multiset{id};
      var committed := CloseSessionInternal(id);
      if committed {
        awaiting := awaiting + multiset{id};
      } else {
        closing := closing - {id};
      }
    }

    method EndCloseTask(id: SessionId)
      requires Valid()
      modifies this
      ensures View() == Apply(old(View()), CloseTaskEnds(id))
      ensures Valid() && trace == old(trace) + [CloseTaskEnds(id)]
    {
      if awaiting[id] > 0 {
        awaiting := awaiting - multiset{id};
        closing := closing - {id};
      }
      Took(CloseTaskEnds(id));
    }

    method DestroySession(id: SessionId)
      requires Valid()
      modifies this
      ensures View() == Apply(old(View()), DestroyRuns(id))
      ensures Valid() && trace == old(trace) + [DestroyRuns(id)]
    {
      var committed := CloseSessionInternal(id);
      Took(DestroyRuns(id));
    }

    /** The internal close up to its first await; the result tells whether it goes on to the sidecar. */
    method CloseSessionInternal(id: SessionId) returns (committed: bool)
      modifies this`live, this`closed
      ensures committed <==> Commits(old(View()), id)
      ensures View() == CloseInternal(old(View()), id)
    {
      if id in closed {
        return false;
      }
      if id !in live {
        return false;
      }
      live := live - {id};
      PushClosed(id);
      committed := true;
    }

    method PushClosed(id: SessionId)
      modifies this`closed
      ensures closed == Push(old(closed), id)
    {
      closed := closed + [id];
      ghost var all := closed;
      while |closed| > LIMIT
        invariant |closed| <= |all| && (|closed| < |all| ==> |closed| >= LIMIT)
        invariant closed == all[|all| - |closed|..]
      {
        assert closed[1..] == all[|all| - |closed[1..]|..];
        closed := closed[1..];
      }
    }
  }
}
