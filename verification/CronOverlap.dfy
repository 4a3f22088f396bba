/**
The overlap state machine of the cron manager. The schedule driver is an arbitrary source of fires;
every stretch of code between two awaits is one step, and the steps of all runs interleave freely.
 */
module CronOverlap {

  type Id = string

  datatype Overlap = Allow | Skip | Queue

  datatype Job = Job(overlap: Overlap, running: bool, queued: bool, runCount: nat)

  datatype Event = Fire(id: Id) | Complete(id: Id) | Error(id: Id)

  /** What became of fires that did not start a run, and which registrations there were. */
  datatype History = History(
    fires: multiset<Id>,
    skipped: multiset<Id>,
    coalesced: multiset<Id>,
    dropped: multiset<Id>,
    registrations: multiset<Id>,
    policies: map<Id, Overlap>)

  /** `active` counts the runs inside their action, `deferred` the spawned re-runs not yet begun. */
  datatype State = State(
    jobs: map<Id, Job>,
    active: multiset<Id>,
    deferred: multiset<Id>,
    events: seq<Event>,
    history: History)

  const INITIAL := State(map[], multiset{}, multiset{}, [],
                         History(multiset{}, multiset{}, multiset{}, multiset{}, multiset{}, map[]))

  datatype Step =
    | Register(id: Id, overlap: Overlap)
    | DriverFire(id: Id)
    | BeginDeferred(id: Id)
    | Finish(id: Id, ok: bool)
    | Cancel(id: Id)
    | Dispose

  // ---------------------------------------------------------------------------
  // Steps
  // ---------------------------------------------------------------------------

  /** The job's queued fire is lost when the job goes away. */
  function LostWith(jobs: map<Id, Job>, id: Id): multiset<Id> {
    if id in jobs && jobs[id].queued then multiset{id} else multiset{}
  }

  /** One execution up to its first await: skip, queue, drop, or mark running and emit `Fire`. */
  function Execute(s: State, id: Id): State {
    if id !in s.jobs then s.(history := s.history.(dropped := s.history.dropped + multiset{id}))
    else
      var job := s.jobs[id];
      if job.running && job.overlap.Skip? then
        s.(history := s.history.(skipped := s.history.skipped + multiset{id}))
      else if job.running && job.overlap.Queue? then
        if job.queued then s.(history := s.history.(coalesced := s.history.coalesced + multiset{id}))
        else s.(jobs := s.jobs[id := job.(queued := true)])
      else StartRun(s, id)
  }

  function StartRun(s: State, id: Id): State
    requires id in s.jobs
  {
    var job := s.jobs[id];
    s.(jobs := s.jobs[id := job.(running := true, runCount := job.runCount + 1)],
       active := s.active + multiset{id},
       events := s.events + [Fire(id)])
  }

  /** The end of a run: its closing event, then the running flag, then the queued fire. */
  function FinishRun(s: State, id: Id, ok: bool): State {
    var ended := s.(active := s.active - multiset{id},
                    events := s.events + [if ok then Complete(id) else Error(id)]);
    if id !in s.jobs then ended
    else
      var job := s.jobs[id];
      ended.(jobs := s.jobs[id := job.(running := false, queued := false)],
             deferred := if job.queued then s.deferred + multiset{id} else s.deferred)
  }

  function Apply(s: State, step: Step): State {
    match step
    case Register(id, overlap) =>
      s.(jobs := s.jobs[id := Job(overlap, false, false, 0)],
         history := s.history.(dropped := s.history.dropped + LostWith(s.jobs, id),
                               registrations := s.history.registrations + multiset{id},
                               policies := s.history.policies[id := overlap]))
    case DriverFire(id) =>
      Execute(s.(history := s.history.(fires := s.history.fires + multiset{id})), id)
    case BeginDeferred(id) =>
      if s.deferred[id] == 0 then s else Execute(s.(deferred := s.deferred - multiset{id}), id)
    case Finish(id, ok) =>
      if s.active[id] == 0 then s else FinishRun(s, id, ok)
    case Cancel(id) =>
      s.(jobs := s.jobs - {id},
         history := s.history.(dropped := s.history.dropped + LostWith(s.jobs, id)))
    case Dispose =>
      s.(jobs := map[],
         history := s.history.(dropped := s.history.dropped
                                          + multiset(set id | id in s.jobs && s.jobs[id].queued)))
  }

  function Run(s: State, steps: seq<Step>): State {
    if steps == [] then s else Apply(Run(s, steps[..|steps| - 1]), steps[|steps| - 1])
  }

  // ---------------------------------------------------------------------------
  // Properties of whole runs
  // ---------------------------------------------------------------------------

  function Count(events: seq<Event>, e: Event): nat {
    multiset(events)[e]
  }

  /** Whether the last thing that happened to the job's runs was a start. */
  ghost predicate LastWasFire(events: seq<Event>, id: Id) {
    events != [] && var last := events[|events| - 1];
                    if last.id == id then last.Fire? else LastWasFire(events[..|events| - 1], id)
  }

  /** Every fire is accounted for, apart from the `inHand` ones being executed right now. */
  ghost predicate FiresConserved(s: State, id: Id, inHand: nat) {
    s.history.fires[id] ==
    Count(s.events, Fire(id)) + s.history.skipped[id] + s.history.coalesced[id] + s.history.dropped[id]
    + (if id in s.jobs && s.jobs[id].queued then 1 else 0) + s.deferred[id] + inHand
  }

  /** Every started run has ended or is active. */
  ghost predicate RunsConserved(s: State, id: Id) {
    Count(s.events, Fire(id)) == Count(s.events, Complete(id)) + Count(s.events, Error(id)) + s.active[id]
  }

  ghost predicate NeverRegistered(s: State, id: Id) {
    s.history.registrations[id] == 0 ==> id !in s.jobs && s.active[id] == 0 && Count(s.events, Fire(id)) == 0
  }

  /** What holds of an id that was registered once. */
  ghost predicate FlagsAccurate(s: State, id: Id) {
    s.history.registrations[id] == 1 ==>
      && id in s.history.policies
      && (!s.history.policies[id].Allow? ==> s.active[id] <= 1)
      && (id in s.jobs ==>
            var job := s.jobs[id];
            && job.overlap == s.history.policies[id]
            && job.runCount == Count(s.events, Fire(id))
            && (job.running <==> LastWasFire(s.events, id))
            && (job.running ==> s.active[id] >= 1)
            && (!job.overlap.Allow? ==> (job.running <==> s.active[id] == 1))
            && (job.queued ==> job.running && job.overlap.Queue?))
  }

  ghost predicate IdInv(s: State, id: Id, inHand: nat) {
    && FiresConserved(s, id, inHand)
    && RunsConserved(s, id)
    && NeverRegistered(s, id)
    && FlagsAccurate(s, id)
  }

  ghost predicate Inv(s: State) {
    forall id :: IdInv(s, id, 0)
  }

  lemma CountAppend(events: seq<Event>, e: Event, f: Event)
    ensures Count(events + [e], f) == Count(events, f) + (if e == f then 1 else 0)
  {
  }

  lemma LastWasFireAppend(events: seq<Event>, e: Event, id: Id)
    ensures LastWasFire(events + [e], id) <==> if e.id == id then e.Fire? else LastWasFire(events, id)
  {
    assert (events + [e])[..|events|] == events;
  }

  /** A job that was never started was not last seen starting. */
  lemma {:induction false} NoFireNoLast(events: seq<Event>, id: Id)
    requires Count(events, Fire(id)) == 0
    ensures !LastWasFire(events, id)
  {
    if events != [] {
      var front := events[..|events| - 1];
      assert events == front + [events[|events| - 1]];
      NoFireNoLast(front, id);
    }
  }

  lemma StartKeeps(s: State, id: Id, other: Id)
    requires id in s.jobs && (s.jobs[id].running ==> s.jobs[id].overlap.Allow?)
    requires IdInv(s, other, if id == other then 1 else 0)
    ensures IdInv(StartRun(s, id), other, 0)
  {
    CountAppend(s.events, Fire(id), Fire(other));
    CountAppend(s.events, Fire(id), Complete(other));
    CountAppend(s.events, Fire(id), Error(other));
    LastWasFireAppend(s.events, Fire(id), other);
  }

  lemma ExecuteKeeps(s: State, id: Id, other: Id)
    requires IdInv(s, other, if id == other then 1 else 0)
    ensures IdInv(Execute(s, id), other, 0)
  {
    if id in s.jobs && (!s.jobs[id].running || s.jobs[id].overlap.Allow?) {
      StartKeeps(s, id, other);
    } else if id in s.jobs && s.jobs[id].overlap.Queue? && !s.jobs[id].queued {
      QueueKeeps(s, id, other);
    } else {
      assert FiresConserved(Execute(s, id), other, 0);
    }
  }

  lemma QueueKeeps(s: State, id: Id, other: Id)
    requires id in s.jobs && s.jobs[id].running && s.jobs[id].overlap.Queue? && !s.jobs[id].queued
    requires IdInv(s, other, if id == other then 1 else 0)
    ensures IdInv(Execute(s, id), other, 0)
  {
  }

  lemma FinishCounts(s: State, id: Id, ok: bool, other: Id)
    requires s.active[id] > 0 && FiresConserved(s, other, 0) && RunsConserved(s, other)
    ensures FiresConserved(FinishRun(s, id, ok), other, 0) && RunsConserved(FinishRun(s, id, ok), other)
    ensures Count(FinishRun(s, id, ok).events, Fire(other)) == Count(s.events, Fire(other))
  {
    var e := if ok then Complete(id) else Error(id);
    CountAppend(s.events, e, Fire(other));
    CountAppend(s.events, e, Complete(other));
    CountAppend(s.events, e, Error(other));
  }

  lemma FinishKeeps(s: State, id: Id, ok: bool, other: Id)
    requires s.active[id] > 0 && IdInv(s, other, 0)
    ensures IdInv(FinishRun(s, id, ok), other, 0)
  {
    FinishCounts(s, id, ok, other);
    FinishFlags(s, id, ok, other);
  }

  lemma FinishFlags(s: State, id: Id, ok: bool, other: Id)
    requires s.active[id] > 0 && FlagsAccurate(s, other)
    requires Count(FinishRun(s, id, ok).events, Fire(other)) == Count(s.events, Fire(other))
    ensures FlagsAccurate(FinishRun(s, id, ok), other)
  {
    LastWasFireAppend(s.events, if ok then Complete(id) else Error(id), other);
  }

  /** A fire has arrived and is about to be executed. */
  lemma FireInHand(s: State, x: Id, id: Id)
    requires IdInv(s, id, 0)
    ensures IdInv(s.(history := s.history.(fires := s.history.fires + multiset{x})), id, if x == id then 1 else 0)
  {
  }

  /** A deferred run has begun and is about to be executed. */
  lemma DeferredInHand(s: State, x: Id, id: Id)
    requires IdInv(s, id, 0) && s.deferred[x] > 0
    ensures IdInv(s.(deferred := s.deferred - multiset{x}), id, if x == id then 1 else 0)
  {
  }

  lemma RegistryStepKeeps(s: State, step: Step, id: Id)
    requires step.Register? || step.Cancel? || step.Dispose?
    requires IdInv(s, id, 0)
    ensures IdInv(Apply(s, step), id, 0)
  {
    if step.Register? && step.id == id && s.history.registrations[id] == 0 {
      NoFireNoLast(s.events, id);
    }
  }

  lemma StepKeepsId(s: State, step: Step, id: Id)
    requires IdInv(s, id, 0)
    ensures IdInv(Apply(s, step), id, 0)
  {
    match step
    case DriverFire(x) =>
      FireInHand(s, x, id);
      ExecuteKeeps(s.(history := s.history.(fires := s.history.fires + multiset{x})), x, id);
    case BeginDeferred(x) =>
      if s.deferred[x] > 0 {
        DeferredInHand(s, x, id);
        ExecuteKeeps(s.(deferred := s.deferred - multiset{x}), x, id);
      }
    case Finish(x, ok) =>
      if s.active[x] > 0 {
        FinishKeeps(s, x, ok, id);
      }
    case Register(_, _) => RegistryStepKeeps(s, step, id);
    case Cancel(_) => RegistryStepKeeps(s, step, id);
    case Dispose => RegistryStepKeeps(s, step, id);
  }

  /** The runs of `id` that ended, well or not: the finishes that found one active. */
  function Ended(steps: seq<Step>, id: Id, ok: bool): nat {
    if steps == [] then 0
    else
      var before, step := steps[..|steps| - 1], steps[|steps| - 1];
      Ended(before, id, ok) + (if step == Finish(id, ok) && Run(INITIAL, before).active[id] > 0 then 1 else 0)
  }

  /** A run that went well ends in a Complete event and one that did not in an Error event. */
  lemma {:induction false} EndsAreTold(steps: seq<Step>, id: Id)
    ensures Count(Run(INITIAL, steps).events, Complete(id)) == Ended(steps, id, true)
    ensures Count(Run(INITIAL, steps).events, Error(id)) == Ended(steps, id, false)
  {
    if steps != [] {
      var before, step := steps[..|steps| - 1], steps[|steps| - 1];
      EndsAreTold(before, id);
      EndStep(Run(INITIAL, before), step, Complete(id));
      EndStep(Run(INITIAL, before), step, Error(id));
    }
  }

  lemma EndStep(s: State, step: Step, e: Event)
    requires !e.Fire?
    ensures Count(Apply(s, step).events, e) ==
            Count(s.events, e)
            + (if step == Finish(e.id, e.Complete?) && s.active[e.id] > 0 then 1 else 0)
  {
    match step
    case DriverFire(x) => FireEndsNone(s, x, e);
    case BeginDeferred(x) => DeferredEndsNone(s, x, e);
    case Finish(x, ok) => FinishTells(s, x, ok, e);
    case _ =>
  }

  lemma FireEndsNone(s: State, id: Id, e: Event)
    requires !e.Fire?
    ensures Count(Apply(s, DriverFire(id)).events, e) == Count(s.events, e)
  {
    ExecuteEndsNone(s.(history := s.history.(fires := s.history.fires + multiset{id})), id, e);
  }

  lemma DeferredEndsNone(s: State, id: Id, e: Event)
    requires !e.Fire?
    ensures Count(Apply(s, BeginDeferred(id)).events, e) == Count(s.events, e)
  {
    ExecuteEndsNone(s.(deferred := s.deferred - multiset{id}), id, e);
  }

  lemma ExecuteEndsNone(s: State, id: Id, e: Event)
    requires !e.Fire?
    ensures Count(Execute(s, id).events, e) == Count(s.events, e)
  {
    CountAppend(s.events, Fire(id), e);
  }

  lemma FinishTells(s: State, id: Id, ok: bool, e: Event)
    ensures Count(Apply(s, Finish(id, ok)).events, e) ==
            Count(s.events, e)
            + (if s.active[id] > 0 && e == (if ok then Complete(id) else Error(id)) then 1 else 0)
  {
    CountAppend(s.events, if ok then Complete(id) else Error(id), e);
  }

  /** All of it holds in every reachable state. */
  lemma {:induction false} RunKeeps(steps: seq<Step>)
    ensures Inv(Run(INITIAL, steps))
  {
    if steps != [] {
      var before := steps[..|steps| - 1];
      RunKeeps(before);
      forall id
        ensures IdInv(Run(INITIAL, steps), id, 0)
      {
        StepKeepsId(Run(INITIAL, before), steps[|steps| - 1], id);
      }
    }
  }

  /** What the policies mean for a fire during a run: `Allow` starts a second run at once, `Queue`
      starts it once the run has ended, and `Skip` never does. */
  lemma FireDuringRun(s: State, id: Id, ok: bool)
    requires id in s.jobs && s.jobs[id].running && s.active[id] > 0
    requires s.jobs[id].queued ==> s.jobs[id].overlap.Queue?
    requires s.deferred[id] == 0 || s.jobs[id].overlap.Queue?
    ensures var fired := Run(s, [DriverFire(id)]);
            Count(fired.events, Fire(id)) - Count(s.events, Fire(id)) == if s.jobs[id].overlap.Allow? then 1 else 0
    ensures var after := Run(s, [DriverFire(id), Finish(id, ok), BeginDeferred(id)]);
            Count(after.events, Fire(id)) - Count(s.events, Fire(id)) == if s.jobs[id].overlap.Skip? then 0 else 1
  {
    var a, b, c := DriverFire(id), Finish(id, ok), BeginDeferred(id);
    OneMore(s, [], a);
    OneMore(s, [a], b);
    OneMore(s, [a, b], c);
    assert [] + [a] == [a] && [a] + [b] == [a, b] && [a, b] + [c] == [a, b, c];
    FiredRunning(s, id);
    FinishedAndDeferred(Apply(s, a), id, ok);
  }

  lemma FiredRunning(s: State, id: Id)
    requires id in s.jobs && s.jobs[id].running
    ensures var t, overlap := Apply(s, DriverFire(id)), s.jobs[id].overlap;
            && Count(t.events, Fire(id)) == Count(s.events, Fire(id)) + (if overlap.Allow? then 1 else 0)
            && id in t.jobs && t.jobs[id].overlap == overlap && t.deferred == s.deferred
            && t.active[id] >= s.active[id]
            && t.jobs[id].queued == (s.jobs[id].queued || overlap.Queue?)
  {
    CountAppend(s.events, Fire(id), Fire(id));
  }

  lemma FinishedAndDeferred(s: State, id: Id, ok: bool)
    requires id in s.jobs && s.active[id] > 0
    ensures var t := Apply(Apply(s, Finish(id, ok)), BeginDeferred(id));
            Count(t.events, Fire(id)) ==
            Count(s.events, Fire(id)) + (if s.deferred[id] > 0 || s.jobs[id].queued then 1 else 0)
  {
    FinishTells(s, id, ok, Fire(id));
    FinishLeaves(s, id, ok);
    DeferredStarts(Apply(s, Finish(id, ok)), id);
  }

  lemma FinishLeaves(s: State, id: Id, ok: bool)
    requires id in s.jobs && s.active[id] > 0
    ensures var t := Apply(s, Finish(id, ok));
            id in t.jobs && !t.jobs[id].running && (t.deferred[id] > 0 <==> s.deferred[id] > 0 || s.jobs[id].queued)
  {
  }

  lemma DeferredStarts(s: State, id: Id)
    requires id in s.jobs && !s.jobs[id].running
    ensures Count(Apply(s, BeginDeferred(id)).events, Fire(id)) ==
            Count(s.events, Fire(id)) + (if s.deferred[id] > 0 then 1 else 0)
  {
    CountAppend(s.events, Fire(id), Fire(id));
  }

  ghost predicate Registers(steps: seq<Step>, id: Id) {
    exists k :: 0 <= k < |steps| && steps[k].Register? && steps[k].id == id
  }

  lemma QuietExecute(s: State, x: Id, id: Id)
    requires id !in s.jobs
    ensures id !in Execute(s, x).jobs && Count(Execute(s, x).events, Fire(id)) == Count(s.events, Fire(id))
  {
    CountAppend(s.events, Fire(x), Fire(id));
  }

  lemma QuietStep(s: State, step: Step, id: Id)
    requires id !in s.jobs && !(step.Register? && step.id == id)
    ensures id !in Apply(s, step).jobs && Count(Apply(s, step).events, Fire(id)) == Count(s.events, Fire(id))
  {
    match step
    case DriverFire(x) => QuietExecute(s.(history := s.history.(fires := s.history.fires + multiset{x})), x, id);
    case BeginDeferred(x) => QuietExecute(s.(deferred := s.deferred - multiset{x}), x, id);
    case Finish(x, ok) => CountAppend(s.events, if ok then Complete(x) else Error(x), Fire(id));
    case _ =>
  }

  /** While an id stays unregistered nothing starts a run of it. */
  lemma {:induction false} QuietWhileUnregistered(s: State, steps: seq<Step>, id: Id)
    requires id !in s.jobs && !Registers(steps, id)
    ensures id !in Run(s, steps).jobs
    ensures Count(Run(s, steps).events, Fire(id)) == Count(s.events, Fire(id))
  {
    if steps != [] {
      var before := steps[..|steps| - 1];
      assert forall k :: 0 <= k < |before| ==> before[k] == steps[k];
      QuietWhileUnregistered(s, before, id);
      QuietStep(Run(s, before), steps[|steps| - 1], id);
    }
  }

  lemma {:induction false} RunConcat(s: State, a: seq<Step>, b: seq<Step>)
    ensures Run(s, a + b) == Run(Run(s, a), b)
    decreases |b|
  {
    if b == [] {
      assert a + b == a;
    } else {
      assert (a + b)[..|a + b| - 1] == a + b[..|b| - 1];
      RunConcat(s, a, b[..|b| - 1]);
    }
  }

  /** After a cancel or a dispose there is no `Fire` for the id until it is registered again,
      whatever the driver, the active runs and the deferred runs do. */
  lemma NoFireAfterStop(before: seq<Step>, stop: Step, after: seq<Step>, id: Id)
    requires stop == Cancel(id) || stop == Dispose
    requires !Registers(after, id)
    ensures Count(Run(INITIAL, before + [stop] + after).events, Fire(id)) ==
            Count(Run(INITIAL, before).events, Fire(id))
  {
    var t := Run(INITIAL, before + [stop]);
    assert (before + [stop])[..|before|] == before;
    RunConcat(INITIAL, before + [stop], after);
    QuietWhileUnregistered(t, after, id);
  }

  /** Under `Allow` the running flag can be down while a run is active: two fires, one end. */
  lemma AllowFlagCanLie(id: Id)
    ensures var s := Run(INITIAL, [Register(id, Allow), DriverFire(id), DriverFire(id), Finish(id, true)]);
            id in s.jobs && !s.jobs[id].running && s.active[id] == 1
  {
    var steps := [Register(id, Allow), DriverFire(id), DriverFire(id), Finish(id, true)];
    var s1 := Apply(INITIAL, steps[0]);
    var s2 := Apply(s1, steps[1]);
    var s3 := Apply(s2, steps[2]);
    FourSteps(steps);
    assert s3.active[id] == 2;
  }

  /** Registering an id again while a run is active lets `Skip` overlap. */
  lemma ReRegisteringCanOverlap(id: Id)
    ensures Run(INITIAL, [Register(id, Skip), DriverFire(id), Register(id, Skip), DriverFire(id)]).active[id] == 2
  {
    FourSteps([Register(id, Skip), DriverFire(id), Register(id, Skip), DriverFire(id)]);
  }

  /** No two runs at once, and the flag of a registered job says whether there is one. */
  ghost predicate Single(s: State, id: Id) {
    && s.active[id] <= 1
    && (id in s.jobs ==> !s.jobs[id].overlap.Allow? && (s.jobs[id].running <==> s.active[id] == 1))
  }

  lemma SingleExecute(s: State, other: Id, id: Id)
    requires Single(s, id)
    ensures Single(Execute(s, other), id)
  {
  }

  lemma SingleStep(s: State, step: Step, id: Id)
    requires Single(s, id) && !(step.Register? && step.id == id)
    ensures Single(Apply(s, step), id)
  {
    match step
    case DriverFire(other) =>
      SingleExecute(s.(history := s.history.(fires := s.history.fires + multiset{other})), other, id);
    case BeginDeferred(other) =>
      SingleExecute(s.(deferred := s.deferred - multiset{other}), other, id);
    case _ =>
  }

  lemma {:induction false} SingleRun(s: State, steps: seq<Step>, id: Id)
    requires Single(s, id) && !Registers(steps, id)
    ensures Single(Run(s, steps), id)
  {
    if steps != [] {
      var before := steps[..|steps| - 1];
      assert forall k :: 0 <= k < |before| ==> before[k] == steps[k];
      SingleRun(s, before, id);
      SingleStep(Run(s, before), steps[|steps| - 1], id);
    }
  }

  /** Registering an id, for the first time or again, makes it safe from overlapping runs until the
      next registration exactly when none of its runs is active at that moment. */
  lemma NoOverlapIffIdle(s: State, id: Id, overlap: Overlap)
    requires !overlap.Allow?
    ensures (forall steps :: !Registers(steps, id) ==> Run(Apply(s, Register(id, overlap)), steps).active[id] <= 1)
            <==> s.active[id] == 0
  {
    var t := Apply(s, Register(id, overlap));
    if s.active[id] == 0 {
      forall steps | !Registers(steps, id)
        ensures Run(t, steps).active[id] <= 1
      {
        SingleRun(t, steps, id);
      }
    } else {
      var steps := [DriverFire(id)];
      assert !Registers(steps, id);
      assert Run(t, steps) == Apply(t, DriverFire(id)) by {
        assert steps[..0] == [];
      }
    }
  }

  lemma OneMore(s: State, steps: seq<Step>, step: Step)
    ensures Run(s, steps + [step]) == Apply(Run(s, steps), step)
  {
    assert (steps + [step])[..|steps|] == steps;
  }

  lemma FourSteps(steps: seq<Step>)
    requires |steps| == 4
    ensures Run(INITIAL, steps) == Apply(Apply(Apply(Apply(INITIAL, steps[0]), steps[1]), steps[2]), steps[3])
  {
    OneMore(INITIAL, [], steps[0]);
    OneMore(INITIAL, [steps[0]], steps[1]);
    OneMore(INITIAL, [steps[0], steps[1]], steps[2]);
    OneMore(INITIAL, [steps[0], steps[1], steps[2]], steps[3]);
    assert [] + [steps[0]] == [steps[0]];
    assert [steps[0]] + [steps[1]] == [steps[0], steps[1]];
    assert [steps[0], steps[1]] + [steps[2]] == [steps[0], steps[1], steps[2]];
    assert [steps[0], steps[1], steps[2]] + [steps[3]] == steps;
  }

  // ---------------------------------------------------------------------------
  // The manager
  // ---------------------------------------------------------------------------

  lemma Replaced(jobs: map<Id, Job>, id: Id, job: Job)
    ensures (jobs - {id})[id := job] == jobs[id := job]
  {
  }

  /** The registry and event stream the steps above describe, updated in place. `trace` are the steps
      so far, so everything proved of runs holds of the object. */
  class CronManager {
    var jobs: map<Id, Job>
    var events: seq<Event>
    var active: multiset<Id>
    var deferred: multiset<Id>
    ghost var history: History
    ghost var trace: seq<Step>

    ghost function View(): State
      reads this
    {
      State(jobs, active, deferred, events, history)
    }

    ghost predicate Valid()
      reads this
    {
      View() == Run(INITIAL, trace)
    }

    constructor ()
      ensures Valid() && trace == []
    {
      jobs, events, active, deferred := map[], [], multiset{}, multiset{};
      history, trace := INITIAL.history, [];
    }

    ghost method Took(step: Step)
      requires View() == Apply(Run(INITIAL, trace), step)
      modifies `trace
      ensures Valid() && trace == old(trace) + [step]
    {
      OneMore(INITIAL, trace, step);
      trace := trace + [step];
    }

    lemma Conserves()
      requires Valid()
      ensures Inv(View())
    {
      RunKeeps(trace);
    }

    method ScheduleCron(id: Id, overlap: Overlap)
      requires Valid()
      modifies this
      ensures View() == Apply(old(View()), Register(id, overlap))
      ensures Valid() && trace == old(trace) + [Register(id, overlap)]
    {
      history := history.(dropped := history.dropped + LostWith(jobs, id),
                          registrations := history.registrations + multiset{id},
                          policies := history.policies[id := overlap]);
      Replaced(jobs, id, Job(overlap, false, false, 0));
      jobs := jobs - {id};
      jobs := jobs[id := Job(overlap, false, false, 0)];
      Took(Register(id, overlap));
    }

    /** A driver callback enters the manager. */
    method OnDriverFire(id: Id)
      requires Valid()
      modifies this
      ensures View() == Apply(old(View()), DriverFire(id))
      ensures Valid() && trace == old(trace) + [DriverFire(id)]
    {
      history := history.(fires := history.fires + multiset{id});
      StartJob(id);
      Took(DriverFire(id));
    }

    /** A spawned re-run gets its turn. */
    method OnDeferredTurn(id: Id)
      requires Valid()
      modifies this
      ensures View() == Apply(old(View()), BeginDeferred(id))
      ensures Valid() && trace == old(trace) + [BeginDeferred(id)]
    {
      if deferred[id] > 0 {
        deferred := deferred - multiset{id};
        StartJob(id);
      }
      Took(BeginDeferred(id));
    }

    method StartJob(id: Id)
      modifies `jobs, `events, `active, `history
      ensures View() == Execute(old(View()), id)
    {
      var shouldReturn, shouldQueue := false, false;
      if id in jobs && jobs[id].running {
        match jobs[id].overlap
        case Allow =>
        case Skip => shouldReturn := true;
        case Queue => shouldQueue := true;
      }
      if shouldReturn {
        history := history.(skipped := history.skipped + multiset{id});
        return;
      }
      if shouldQueue {
        if jobs[id].queued {
          history := history.(coalesced := history.coalesced + multiset{id});
        }
        jobs := jobs[id := jobs[id].(queued := true)];
        return;
      }
      if id !in jobs {
        history := history.(dropped := history.dropped + multiset{id});
        return;
      }
      jobs := jobs[id := jobs[id].(running := true, runCount := jobs[id].runCount + 1)];
      events := events + [Fire(id)];
      active := active + multiset{id};
    }

    method FinishJob(id: Id, ok: bool)
      requires Valid()
      modifies this
      ensures View() == Apply(old(View()), Finish(id, ok))
      ensures Valid() && trace == old(trace) + [Finish(id, ok)]
    {
      if active[id] > 0 {
        EndRun(id, ok);
      }
      Took(Finish(id, ok));
    }

    method EndRun(id: Id, ok: bool)
      requires active[id] > 0
      modifies `jobs, `events, `active, `deferred
      ensures View() == FinishRun(old(View()), id, ok)
    {
      active := active - multiset{id};
      events := events + [if ok then Complete(id) else Error(id)];
      var runQueued := false;
      if id in jobs {
        runQueued := jobs[id].queued;
        jobs := jobs[id := jobs[id].(running := false, queued := false)];
      }
      if runQueued {
        deferred := deferred + multiset{id};
      }
    }

    method CancelJob(id: Id)
      requires Valid()
      modifies this
      ensures View() == Apply(old(View()), Cancel(id))
      ensures Valid() && trace == old(trace) + [Cancel(id)]
    {
      history := history.(dropped := history.dropped + LostWith(jobs, id));
      jobs := jobs - {id};
      Took(Cancel(id));
    }

    method DisposeAll()
      requires Valid()
      modifies this
      ensures View() == Apply(old(View()), Dispose)
      ensures Valid() && trace == old(trace) + [Dispose]
    {
      history := history.(dropped := history.dropped + multiset(set id | id in jobs && jobs[id].queued));
      jobs := map[];
      Took(Dispose);
    }
  }
}
