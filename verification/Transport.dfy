/**
Request/response correlation over the shared sidecar channel. A request takes an id, is encoded and
registered, and only then put on the outbound queue; the steps of different requests, the reader
and the disconnect interleave freely, also between those stages.
 */
module Transport {
  import opened Core

  const I64_MAX := 0x7FFF_FFFF_FFFF_FFFF
  const I64_MIN := -0x8000_0000_0000_0000

  /** Atomic counters wrap around. */
  function Increment(n: int): int {
    if n == I64_MAX then I64_MIN else n + 1
  }

  function Decrement(n: int): int {
    if n == I64_MIN then I64_MAX else n - 1
  }

  datatype Outcome = Response(payload: string) | Disconnected | TransportClosed | EncodeError

  /** The stages of a request: id taken, registered as pending, bytes handed to the writer. */
  datatype Stage = Allocated | Registered | Enqueued | Abandoned

  /** The response channel: sender stored, response sent, sender gone. */
  datatype Channel = Waiting | Delivered(payload: string) | Dropped

  datatype Request = Request(body: string, stage: Stage, channel: Channel, outcome: Option<Outcome>)

  datatype Frame = Frame(id: int, body: string)

  datatype State = State(
    nextId: int,
    nextSidecarId: int,
    pending: set<int>,
    requests: map<int, Request>,
    outbound: seq<Frame>,
    writerOpen: bool)

  const INITIAL := State(1, -1, {}, map[], [], true)

  datatype Step =
    | Allocate(body: string)
    | EncodeFails(id: int)
    | Register(id: int)
    | Enqueue(id: int)
    | Inbound(id: int, payload: string)
    | Poll(id: int)
    | FailAllPending
    | WriterStops
    | AllocateSidecarId

  predicate At(s: State, id: int, stage: Stage) {
    id in s.requests && s.requests[id].stage == stage
  }

  function Update(s: State, id: int, r: Request): State {
    s.(requests := s.requests[id := r])
  }

  // ---------------------------------------------------------------------------
  // Steps
  // ---------------------------------------------------------------------------

  function EnqueueRequest(s: State, id: int): State
    requires At(s, id, Registered)
  {
    var r := s.requests[id];
    if s.writerOpen then
      Update(s, id, r.(stage := Enqueued)).(outbound := s.outbound + [Frame(id, r.body)])
    else
      Update(s, id, r.(stage := Abandoned, outcome := Some(TransportClosed),
                       channel := if r.channel.Waiting? then Dropped else r.channel)).(pending := s.pending - {id})
  }

  function HandleResponse(s: State, id: int, payload: string): State {
    if id !in s.pending || id !in s.requests then s
    else Update(s, id, s.requests[id].(channel := Delivered(payload))).(pending := s.pending - {id})
  }

  /** Clearing the map drops every stored sender. */
  function DropAll(s: State): State {
    s.(pending := {},
       requests := map id | id in s.requests ::
         if id in s.pending then s.requests[id].(channel := Dropped) else s.requests[id])
  }

  function PollRequest(s: State, id: int): State {
    if !At(s, id, Enqueued) || s.requests[id].outcome.Some? then s
    else
      var r := s.requests[id];
      match r.channel
      case Waiting => s
      case Delivered(payload) => Update(s, id, r.(outcome := Some(Response(payload))))
      case Dropped => Update(s, id, r.(outcome := Some(Disconnected)))
  }

  function Apply(s: State, step: Step): State {
    match step
    case Allocate(body) =>
      s.(nextId := Increment(s.nextId),
         requests := s.requests[s.nextId := Request(body, Allocated, Waiting, None)])
    case EncodeFails(id) =>
      if !At(s, id, Allocated) then s
      else Update(s, id, s.requests[id].(stage := Abandoned, channel := Dropped, outcome := Some(EncodeError)))
    case Register(id) =>
      if !At(s, id, Allocated) then s
      else Update(s, id, s.requests[id].(stage := Registered)).(pending := s.pending + {id})
    case Enqueue(id) => if !At(s, id, Registered) then s else EnqueueRequest(s, id)
    case Inbound(id, payload) => HandleResponse(s, id, payload)
    case Poll(id) => PollRequest(s, id)
    case FailAllPending => DropAll(s)
    case WriterStops => s.(writerOpen := false)
    case AllocateSidecarId => s.(nextSidecarId := Decrement(s.nextSidecarId))
  }

  function Run(s: State, steps: seq<Step>): State {
    if steps == [] then s else Apply(Run(s, steps[..|steps| - 1]), steps[|steps| - 1])
  }

  // ---------------------------------------------------------------------------
  // Invariant
  // ---------------------------------------------------------------------------

  ghost predicate RequestOk(s: State, id: int)
    requires id in s.requests
  {
    var r := s.requests[id];
    && 0 < id < s.nextId
    && (id in s.pending <==> r.channel.Waiting? && (r.stage.Registered? || r.stage.Enqueued?))
    && (r.stage.Allocated? ==> r.channel.Waiting?)
    && (r.outcome.Some? ==> !r.channel.Waiting?)
    && (r.outcome.Some? && r.outcome.value.Response? ==> r.channel == Delivered(r.outcome.value.payload))
    && (r.outcome == Some(Disconnected) ==> r.channel == Dropped)
    && (r.outcome == Some(EncodeError) ==> r.stage == Abandoned)
    && (r.outcome == Some(TransportClosed) ==> r.stage == Abandoned)
    && (r.stage.Allocated? || r.stage.Registered? ==> r.outcome.None?)
  }

  /** Whatever the peer can see belongs to a request that was registered before. */
  ghost predicate FrameOk(s: State, f: Frame) {
    f.id in s.requests && s.requests[f.id].stage == Enqueued && s.requests[f.id].body == f.body
  }

  ghost predicate Inv(s: State) {
    && 0 < s.nextId <= I64_MAX && I64_MIN <= s.nextSidecarId < 0
    && (forall id :: id in s.pending ==> id in s.requests)
    && (forall id :: id in s.requests ==> RequestOk(s, id))
    && (forall k :: 0 <= k < |s.outbound| ==> FrameOk(s, s.outbound[k]))
    && (forall j, k :: 0 <= j < k < |s.outbound| ==> s.outbound[j].id != s.outbound[k].id)
  }

  lemma RequestsKeep(s: State, step: Step, id: int)
    requires Inv(s) && s.nextId < I64_MAX && id in Apply(s, step).requests
    ensures RequestOk(Apply(s, step), id)
  {
    if id in s.requests {
      assert RequestOk(s, id);
    }
  }

  lemma FramesKeep(s: State, step: Step)
    requires Inv(s)
    ensures var out := Apply(s, step).outbound;
            && (forall k :: 0 <= k < |out| ==> FrameOk(Apply(s, step), out[k]))
            && (forall j, k :: 0 <= j < k < |out| ==> out[j].id != out[k].id)
  {
    var t := Apply(s, step);
    forall k | 0 <= k < |t.outbound|
      ensures FrameOk(t, t.outbound[k])
    {
      if k < |s.outbound| {
        assert FrameOk(s, s.outbound[k]);
        assert RequestOk(s, s.outbound[k].id);
      }
    }
    forall j, k | 0 <= j < k < |t.outbound|
      ensures t.outbound[j].id != t.outbound[k].id
    {
      assert FrameOk(s, s.outbound[j]);
    }
  }

  lemma StepKeeps(s: State, step: Step)
    requires Inv(s) && s.nextId < I64_MAX && I64_MIN < s.nextSidecarId
    ensures Inv(Apply(s, step))
  {
    forall id | id in Apply(s, step).requests
      ensures RequestOk(Apply(s, step), id)
    {
      RequestsKeep(s, step, id);
    }
    FramesKeep(s, step);
  }

  lemma {:induction false} CountersMove(steps: seq<Step>)
    requires |steps| < I64_MAX - 1
    ensures var s := Run(INITIAL, steps); 0 < s.nextId <= 1 + |steps| && -1 - |steps| <= s.nextSidecarId < 0
  {
    if steps != [] {
      CountersMove(steps[..|steps| - 1]);
    }
  }

  /** Every state reachable before a 64-bit counter can run out is consistent. */
  lemma {:induction false} RunKeeps(steps: seq<Step>)
    requires |steps| < I64_MAX - 1
    ensures Inv(Run(INITIAL, steps))
  {
    if steps != [] {
      var before := steps[..|steps| - 1];
      RunKeeps(before);
      CountersMove(before);
      StepKeeps(Run(INITIAL, before), steps[|steps| - 1]);
    }
  }

  /** Host ids are positive and new; sidecar ids are negative, so the two never meet. */
  lemma IdsAreFresh(steps: seq<Step>)
    requires |steps| < I64_MAX - 1
    ensures var s := Run(INITIAL, steps);
            s.nextId > 0 && s.nextId !in s.requests && s.nextSidecarId < 0
  {
    RunKeeps(steps);
    var s := Run(INITIAL, steps);
    assert forall id :: id in s.requests ==> RequestOk(s, id);
  }

  // ---------------------------------------------------------------------------
  // Delivery
  // ---------------------------------------------------------------------------

  predicate Encoded(r: Request) {
    !r.stage.Allocated? && r.outcome != Some(EncodeError)
  }

  /** A request keeps its body, a channel that has spoken and its outcome; its channel is spoken
      through only by a response with its own id, while it is pending. */
  lemma StepFinal(s: State, step: Step, id: int)
    requires Inv(s) && s.nextId < I64_MAX && id in s.requests
    ensures var t := Apply(s, step);
            && id in t.requests && t.requests[id].body == s.requests[id].body
            && (!s.requests[id].channel.Waiting? ==> t.requests[id].channel == s.requests[id].channel)
            && (s.requests[id].outcome.Some? ==> t.requests[id].outcome == s.requests[id].outcome)
            && (s.requests[id].channel.Waiting? && t.requests[id].channel.Delivered? ==>
                  id in s.pending && step == Inbound(id, t.requests[id].channel.payload))
            && (Encoded(s.requests[id]) ==> Encoded(t.requests[id]))
  {
    assert RequestOk(s, id);
  }

  /** The queue holds exactly one frame, with the request's own body, for every request that was
      enqueued, and none for any other. */
  lemma {:induction false} SentOnce(steps: seq<Step>, id: int)
    requires |steps| < I64_MAX - 1 && id in Run(INITIAL, steps).requests
    ensures var s := Run(INITIAL, steps);
            Copies(s, id) == if At(s, id, Enqueued) then 1 else 0
  {
    var before, step := steps[..|steps| - 1], steps[|steps| - 1];
    var s := Run(INITIAL, before);
    RunKeeps(before);
    CountersMove(before);
    if id in s.requests {
      SentOnce(before, id);
    }
    SentStep(s, step, id);
  }

  function Copies(s: State, id: int): nat
    requires id in s.requests
  {
    multiset(s.outbound)[Frame(id, s.requests[id].body)]
  }

  lemma SentStep(s: State, step: Step, id: int)
    requires Inv(s) && s.nextId < I64_MAX && id in Apply(s, step).requests
    requires id in s.requests ==> Copies(s, id) == if At(s, id, Enqueued) then 1 else 0
    ensures var t := Apply(s, step); Copies(t, id) == if At(t, id, Enqueued) then 1 else 0
  {
    OutboundStep(s, step);
    if id in s.requests {
      StageStep(s, step, id);
    } else {
      assert forall k :: 0 <= k < |s.outbound| ==> FrameOk(s, s.outbound[k]);
      assert At(Apply(s, step), id, Allocated);
    }
  }

  predicate Sends(s: State, step: Step) {
    step.Enqueue? && At(s, step.id, Registered) && s.writerOpen
  }

  lemma OutboundStep(s: State, step: Step)
    ensures Apply(s, step).outbound ==
            s.outbound + if Sends(s, step) then [Frame(step.id, s.requests[step.id].body)] else []
  {
  }

  lemma StageStep(s: State, step: Step, id: int)
    requires Inv(s) && id in s.requests
    ensures var t := Apply(s, step);
            && id in t.requests && t.requests[id].body == s.requests[id].body
            && (At(t, id, Enqueued) <==> At(s, id, Enqueued) || (Sends(s, step) && step.id == id))
            && (Sends(s, step) && step.id == id ==> !At(s, id, Enqueued))
  {
    assert RequestOk(s, id);
  }

  /** How a request that is not sent ends, and that it ends there for good: an encoding error before it
      is registered, a closed transport after it. */
  lemma UnsentIsTold(before: seq<Step>, id: int, after: seq<Step>, encodes: bool)
    requires |before| + 1 + |after| < I64_MAX - 1
    requires var s := Run(INITIAL, before);
             if encodes then At(s, id, Registered) && !s.writerOpen else At(s, id, Allocated)
    ensures var t := Run(INITIAL, before + [if encodes then Enqueue(id) else EncodeFails(id)] + after);
            && id in t.requests && id !in t.pending
            && t.requests[id].outcome == Some(if encodes then TransportClosed else EncodeError)
  {
    var step := if encodes then Enqueue(id) else EncodeFails(id);
    OneMore(INITIAL, before, step);
    RunFinal(before + [step], after, id);
    RunKeeps(before + [step] + after);
    assert RequestOk(Run(INITIAL, before + [step] + after), id);
  }

  /** A request's frame carries the body it was issued with. */
  lemma {:induction false} AllocatedBody(before: seq<Step>, body: string, after: seq<Step>)
    requires |before| + 1 + |after| < I64_MAX - 1
    ensures var id := Run(INITIAL, before).nextId;
            var t := Run(INITIAL, before + [Allocate(body)] + after);
            id in t.requests && t.requests[id].body == body
    decreases |after|
  {
    var issued := before + [Allocate(body)];
    if after == [] {
      assert issued + after == issued;
      OneMore(INITIAL, before, Allocate(body));
    } else {
      var most, last := after[..|after| - 1], after[|after| - 1];
      AllocatedBody(before, body, most);
      RunKeeps(issued + most);
      CountersMove(issued + most);
      StepFinal(Run(INITIAL, issued + most), last, Run(INITIAL, before).nextId);
      OneMore(INITIAL, issued + most, last);
      assert issued + after == issued + most + [last];
    }
  }

  /** A response reached request `id` with this payload, at a moment when it was pending. */
  ghost predicate Arrived(steps: seq<Step>, id: int, payload: string) {
    exists k :: 0 <= k < |steps| && steps[k] == Inbound(id, payload) && id in Run(INITIAL, steps[..k]).pending
  }

  lemma {:induction false} DeliveredArrived(steps: seq<Step>, id: int)
    requires |steps| < I64_MAX - 1
    requires id in Run(INITIAL, steps).requests && Run(INITIAL, steps).requests[id].channel.Delivered?
    ensures Arrived(steps, id, Run(INITIAL, steps).requests[id].channel.payload)
  {
    var before, step := steps[..|steps| - 1], steps[|steps| - 1];
    var s := Run(INITIAL, before);
    RunKeeps(before);
    CountersMove(before);
    if id in s.requests {
      StepFinal(s, step, id);
      if s.requests[id].channel.Delivered? {
        DeliveredArrived(before, id);
        var k :| 0 <= k < |before| && before[k] == Inbound(id, s.requests[id].channel.payload)
                 && id in Run(INITIAL, before[..k]).pending;
        assert before[..k] == steps[..k] && before[k] == steps[k];
      }
    }
  }

  /** A payload reaches only the requester with its id. */
  lemma ResponseIsOwn(steps: seq<Step>, id: int, payload: string)
    requires |steps| < I64_MAX - 1
    requires id in Run(INITIAL, steps).requests && Run(INITIAL, steps).requests[id].outcome == Some(Response(payload))
    ensures Arrived(steps, id, payload)
  {
    RunKeeps(steps);
    assert RequestOk(Run(INITIAL, steps), id);
    DeliveredArrived(steps, id);
  }

  lemma {:induction false} RunFinal(before: seq<Step>, after: seq<Step>, id: int)
    requires |before| + |after| < I64_MAX - 1
    requires id in Run(INITIAL, before).requests
    ensures var s, t := Run(INITIAL, before), Run(INITIAL, before + after);
            && id in t.requests
            && (!s.requests[id].channel.Waiting? ==> t.requests[id].channel == s.requests[id].channel)
            && (s.requests[id].outcome.Some? ==> t.requests[id].outcome == s.requests[id].outcome)
            && (Encoded(s.requests[id]) ==> Encoded(t.requests[id]))
    decreases |after|
  {
    if after == [] {
      assert before + after == before;
    } else {
      var most, last := after[..|after| - 1], after[|after| - 1];
      RunFinal(before, most, id);
      RunKeeps(before + most);
      CountersMove(before + most);
      StepFinal(Run(INITIAL, before + most), last, id);
      OneMore(INITIAL, before + most, last);
      assert before + after == before + most + [last];
    }
  }

  /** A request that was pending when the transport failed never gets a response in any
      continuation: it ends in a disconnect error as soon as it is woken, unless the writer had
      stopped before it was even enqueued, which fails it too. */
  lemma DisconnectIsFinal(before: seq<Step>, after: seq<Step>, id: int)
    requires |before| + 1 + |after| < I64_MAX - 1
    requires id in Run(INITIAL, before).pending
    ensures var t := Run(INITIAL, before + [FailAllPending] + after);
            && id in t.requests
            && t.requests[id].outcome in {None, Some(Disconnected), Some(TransportClosed)}
            && (t.requests[id].stage == Enqueued ==> PollRequest(t, id).requests[id].outcome == Some(Disconnected))
  {
    RunKeeps(before);
    var failed := before + [FailAllPending];
    assert failed[..|before|] == before;
    DropAllDrops(Run(INITIAL, before), id);
    RunFinal(failed, after, id);
    RunKeeps(failed + after);
    DroppedDisconnects(Run(INITIAL, failed + after), id);
  }

  lemma DropAllDrops(s: State, id: int)
    requires Inv(s) && id in s.pending
    ensures var t := Apply(s, FailAllPending);
            id in t.requests && t.requests[id].channel == Dropped && Encoded(t.requests[id])
  {
    assert RequestOk(s, id);
  }

  lemma DroppedDisconnects(s: State, id: int)
    requires Inv(s) && id in s.requests && s.requests[id].channel == Dropped && Encoded(s.requests[id])
    ensures s.requests[id].outcome in {None, Some(Disconnected), Some(TransportClosed)}
    ensures s.requests[id].stage == Enqueued ==> PollRequest(s, id).requests[id].outcome == Some(Disconnected)
  {
    assert RequestOk(s, id);
  }

  /** A response that arrives while its request is pending is delivered: in every continuation the
      request, once enqueued, is woken to exactly this response. */
  lemma ResponseIsDelivered(before: seq<Step>, id: int, payload: string, after: seq<Step>)
    requires |before| + 1 + |after| < I64_MAX - 1 && id in Run(INITIAL, before).pending
    ensures var t := Run(INITIAL, before + [Inbound(id, payload)] + after);
            && id in t.requests && t.requests[id].channel == Delivered(payload)
            && (t.requests[id].stage == Enqueued ==>
                  && t.requests[id].outcome in {None, Some(Response(payload))}
                  && PollRequest(t, id).requests[id].outcome == Some(Response(payload)))
  {
    RunKeeps(before);
    var arrived := before + [Inbound(id, payload)];
    OneMore(INITIAL, before, Inbound(id, payload));
    RunFinal(arrived, after, id);
    RunKeeps(arrived + after);
    DeliveredAnswers(Run(INITIAL, arrived + after), id, payload);
  }

  lemma DeliveredAnswers(s: State, id: int, payload: string)
    requires Inv(s) && id in s.requests && s.requests[id].channel == Delivered(payload)
    ensures s.requests[id].stage == Enqueued ==>
              && s.requests[id].outcome in {None, Some(Response(payload))}
              && PollRequest(s, id).requests[id].outcome == Some(Response(payload))
  {
    assert RequestOk(s, id);
  }

  /** So whatever arrived for a request while it was pending is what it is woken to. */
  lemma ArrivedAnswers(steps: seq<Step>, id: int, payload: string)
    requires |steps| < I64_MAX - 1 && Arrived(steps, id, payload)
    ensures var t := Run(INITIAL, steps);
            && id in t.requests && t.requests[id].channel == Delivered(payload)
            && (t.requests[id].stage == Enqueued ==>
                  PollRequest(t, id).requests[id].outcome == Some(Response(payload)))
  {
    var k :| 0 <= k < |steps| && steps[k] == Inbound(id, payload) && id in Run(INITIAL, steps[..k]).pending;
    SplitAt(steps, k);
    ResponseIsDelivered(steps[..k], id, payload, steps[k + 1..]);
  }

  lemma SplitAt(steps: seq<Step>, k: nat)
    requires k < |steps|
    ensures steps == steps[..k] + [steps[k]] + steps[k + 1..]
  {
  }

  // ---------------------------------------------------------------------------
  // The transport
  // ---------------------------------------------------------------------------

  /** `trace` are the steps so far, so everything proved of runs holds of the object. */
  class SidecarTransport {
    var requestCounter: int
    var sidecarRequestCounter: int
    var pending: set<int>
    var requests: map<int, Request>
    var outbound: seq<Frame>
    var writerOpen: bool
    ghost var trace: seq<Step>

    ghost function View(): State
      reads this
    {
      State(requestCounter, sidecarRequestCounter, pending, requests, outbound, writerOpen)
    }

    ghost predicate Valid()
      reads this
    {
      View() == Run(INITIAL, trace)
    }

    constructor ()
      ensures Valid() && trace == []
    {
      requestCounter, sidecarRequestCounter, trace := 1, -1, [];
      pending, requests, outbound, writerOpen := {}, map[], [], true;
    }

    ghost method Took(step: Step)
      requires View() == Apply(Run(INITIAL, trace), step)
      modifies `trace
      ensures Valid() && trace == old(trace) + [step]
    {
      OneMore(INITIAL, trace, step);
      trace := trace + [step];
    }

    lemma Correlates()
      requires Valid() && |trace| < I64_MAX - 1
      ensures Inv(View())
    {
      RunKeeps(trace);
    }

    method NextRequestId(body: string) returns (id: int)
      requires Valid()
      modifies this
      ensures id == old(requestCounter)
      ensures View() == Apply(old(View()), Allocate(body))
      ensures Valid() && trace == old(trace) + [Allocate(body)]
    {
      id := requestCounter;
      requestCounter := Increment(requestCounter);
      requests := requests[id := Request(body, Allocated, Waiting, None)];
      Took(Allocate(body));
    }

    method NextSidecarRequestId() returns (id: int)
      requires Valid()
      modifies this
      ensures id == old(sidecarRequestCounter)
      ensures View() == Apply(old(View()), AllocateSidecarId)
      ensures Valid() && trace == old(trace) + [AllocateSidecarId]
    {
      id := sidecarRequestCounter;
      sidecarRequestCounter := Decrement(sidecarRequestCounter);
      Took(AllocateSidecarId);
    }

    method AbandonUnencoded(id: int)
      requires At(View(), id, Allocated)
      requires Valid()
      modifies this
      ensures View() == Apply(old(View()), EncodeFails(id))
      ensures Valid() && trace == old(trace) + [EncodeFails(id)]
    {
      requests := requests[id := requests[id].(stage := Abandoned, channel := Dropped, outcome := Some(EncodeError))];
      Took(EncodeFails(id));
    }

    method RegisterPending(id: int)
      requires At(View(), id, Allocated)
      requires Valid()
      modifies this
      ensures View() == Apply(old(View()), Register(id))
      ensures Valid() && trace == old(trace) + [Register(id)]
    {
      requests := requests[id := requests[id].(stage := Registered)];
      pending := pending + {id};
      Took(Register(id));
    }

    /** Hands the bytes to the writer; if it is gone, the registration is taken back. */
    method EnqueueFrame(id: int) returns (error: Option<Outcome>)
      requires At(View(), id, Registered)
      requires Valid()
      modifies this
      ensures View() == Apply(old(View()), Enqueue(id))
      ensures Valid() && trace == old(trace) + [Enqueue(id)]
      ensures error == if writerOpen then None else Some(TransportClosed)
    {
      if writerOpen {
        outbound := outbound + [Frame(id, requests[id].body)];
        requests := requests[id := requests[id].(stage := Enqueued)];
        Took(Enqueue(id));
        return None;
      }
      pending := pending - {id};
      var r := requests[id];
      requests := requests[id := r.(stage := Abandoned, channel := if r.channel.Waiting? then Dropped else r.channel,
                                    outcome := Some(TransportClosed))];
      error := Some(TransportClosed);
      Took(Enqueue(id));
    }

    /** A request up to its await, with nothing in between: id, encoding, registration, send. */
    method IssueRequest(body: string, encodes: bool) returns (id: int, error: Option<Outcome>)
      requires Valid()
      modifies this
      ensures id == old(requestCounter)
      ensures Valid()
      ensures trace == old(trace) + (if encodes then [Allocate(body), Register(id), Enqueue(id)]
                                     else [Allocate(body), EncodeFails(id)])
      ensures error == if !encodes then Some(EncodeError) else if old(writerOpen) then None else Some(TransportClosed)
    {
      id := NextRequestId(body);
      if !encodes {
        AbandonUnencoded(id);
        return id, Some(EncodeError);
      }
      RegisterPending(id);
      error := EnqueueFrame(id);
    }

    /** The waiting request is woken; a decided channel decides its outcome. */
    method WakeRequest(id: int) returns (outcome: Option<Outcome>)
      requires Valid()
      modifies this
      ensures View() == Apply(old(View()), Poll(id))
      ensures Valid() && trace == old(trace) + [Poll(id)]
      ensures |trace| < I64_MAX - 1 && outcome.Some? && outcome.value.Response? ==>
                Arrived(trace, id, outcome.value.payload)
      ensures |trace| < I64_MAX - 1 && At(old(View()), id, Enqueued) ==>
                forall p :: Arrived(old(trace), id, p) ==> outcome == Some(Response(p))
    {
      if |trace| < I64_MAX - 1 {
        forall p | Arrived(trace, id, p)
          ensures id in requests && (requests[id].stage == Enqueued ==>
                                       PollRequest(View(), id).requests[id].outcome == Some(Response(p)))
        {
          ArrivedAnswers(trace, id, p);
        }
      }
      if id in requests && requests[id].stage == Enqueued && requests[id].outcome.None? {
        match requests[id].channel {
          case Waiting =>
          case Delivered(payload) => requests := requests[id := requests[id].(outcome := Some(Response(payload)))];
          case Dropped => requests := requests[id := requests[id].(outcome := Some(Disconnected))];
        }
      }
      outcome := if id in requests then requests[id].outcome else None;
      Took(Poll(id));
      if |trace| < I64_MAX - 1 && outcome.Some? && outcome.value.Response? {
        ResponseIsOwn(trace, id, outcome.value.payload);
      }
    }

    method StopWriter()
      requires Valid()
      modifies this
      ensures View() == Apply(old(View()), WriterStops)
      ensures Valid() && trace == old(trace) + [WriterStops]
    {
      writerOpen := false;
      Took(WriterStops);
    }

    method HandleResponseFrame(id: int, payload: string)
      requires Valid()
      modifies this
      ensures View() == Apply(old(View()), Inbound(id, payload))
      ensures Valid() && trace == old(trace) + [Inbound(id, payload)]
    {
      if id in pending && id in requests {
        pending := pending - {id};
        requests := requests[id := requests[id].(channel := Delivered(payload))];
      }
      Took(Inbound(id, payload));
    }

    method FailAllPendingRequests()
      requires Valid()
      modifies this
      ensures View() == Apply(old(View()), FailAllPending)
      ensures Valid() && trace == old(trace) + [FailAllPending]
    {
      requests := map id | id in requests :: if id in pending then requests[id].(channel := Dropped) else requests[id];
      pending := {};
      Took(FailAllPending);
    }
  }

  lemma OneMore(s: State, steps: seq<Step>, step: Step)
    ensures Run(s, steps + [step]) == Apply(Run(s, steps), step)
  {
    assert (steps + [step])[..|steps|] == steps;
  }
}
