/**
Pending session requests: every request races its sidecar reply against a local resolver that
cancel and close can use. The stretches between awaits are the steps.
 */
module SessionRequests {
  import opened Core
  import opened Decimal
  import opened Ordered

  type SessionId = string

  const PROMPT := "session/prompt"
  const PENDING_METHOD_PREFIX := "__pending_method::"

  /** What a caller of a session request gets back. */
  datatype Answer =
    | Cancelled
    | Closed(session: SessionId)
    | FromSidecar(payload: string)

  /** The resolver channel of a request: still with its sender, answered, or sender gone. */
  datatype Channel = Open | Sent(answer: Answer) | Dropped

  datatype Request = Request(
    session: SessionId,
    method_: string,
    channel: Channel,
    reply: Option<string>,
    answer: Option<Answer>)

  /** The part of a session entry the requests use; method markers share the override map. */
  datatype Entry = Entry(pending: set<int>, overrides: map<string, string>)

  datatype State = State(entries: map<SessionId, Entry>, requests: map<int, Request>, counter: int)

  const INITIAL := State(map[], map[], 1)

  datatype Step =
    | RegisterSession(session: SessionId)
    | DropSession(session: SessionId)
    | Send(session: SessionId, method_: string)
    | SidecarReply(id: int, payload: string)
    | Poll(id: int)
    | CancelPrompts(session: SessionId)
    | Close(session: SessionId)
    | ConfigFallback(request: int, session: SessionId, option: Option<string>, category: string, value: string)

  function MarkerKey(id: int): string {
    PENDING_METHOD_PREFIX + PrintInt(id)
  }

  predicate HasPrefix(key: string) {
    PENDING_METHOD_PREFIX <= key
  }

  function Suffix(key: string): string
    requires HasPrefix(key)
  {
    key[|PENDING_METHOD_PREFIX|..]
  }

  /** The ids marked as prompts, as `cancel` reads them off the override keys. */
  function PromptIds(overrides: map<string, string>): set<int> {
    set key | key in overrides && HasPrefix(key) && overrides[key] == PROMPT && ParseI64(Suffix(key)).Some?
      :: ParseI64(Suffix(key)).value
  }

  // ---------------------------------------------------------------------------
  // Steps
  // ---------------------------------------------------------------------------

  /** Give every request in `ids` that still has its sender the same fate. */
  function Resolve(requests: map<int, Request>, ids: set<int>, fate: Channel): map<int, Request> {
    map id | id in requests ::
      if id in ids && requests[id].channel.Open? then requests[id].(channel := fate) else requests[id]
  }

  function WithoutMarkers(overrides: map<string, string>, ids: set<int>): map<string, string> {
    overrides - (set id | id in ids :: MarkerKey(id))
  }

  function Register(s: State, session: SessionId): State {
    if session in s.entries then s else s.(entries := s.entries[session := Entry({}, map[])])
  }

  /** Removing an entry drops the senders it still holds. */
  function Drop(s: State, session: SessionId): State {
    if session !in s.entries then s
    else s.(entries := s.entries - {session},
            requests := Resolve(s.requests, s.entries[session].pending, Dropped))
  }

  function SendRequest(s: State, session: SessionId, method_: string): State {
    if session !in s.entries then (if method_ == PROMPT then s else s.(counter := s.counter + 1))
    else
      var id, entry := s.counter, s.entries[session];
      var key := MarkerKey(id);
      var overrides := if key in entry.overrides then entry.overrides else entry.overrides[key := method_];
      State(s.entries[session := Entry(entry.pending + {id}, overrides)],
            s.requests[id := Request(session, method_, Open, None, None)],
            s.counter + 1)
  }

  function Cleanup(s: State, session: SessionId, id: int): State {
    if session !in s.entries then s
    else
      var entry := s.entries[session];
      s.(entries := s.entries[session := Entry(entry.pending - {id}, WithoutMarkers(entry.overrides, {id}))],
         requests := if id in entry.pending then Resolve(s.requests, {id}, Dropped) else s.requests)
  }

  function Answered(s: State, id: int, answer: Answer): State
    requires id in s.requests
  {
    var r := s.requests[id];
    var t := Cleanup(s, r.session, id);
    t.(requests := t.requests[id := r.(channel := if r.channel.Open? then Dropped else r.channel,
                                       answer := Some(answer))])
  }

  /** The request task is woken: the resolver is looked at before the reply. */
  function PollRequest(s: State, id: int): State {
    if id !in s.requests || s.requests[id].answer.Some? then s
    else
      var r := s.requests[id];
      match r.channel
      case Sent(answer) => Answered(s, id, answer)
      case Dropped => Answered(s, id, Closed(r.session))
      case Open => if r.reply.Some? then Answered(s, id, FromSidecar(r.reply.value)) else s
  }

  function CancelPending(s: State, session: SessionId): State {
    if session !in s.entries then s
    else
      var entry := s.entries[session];
      var ids := PromptIds(entry.overrides);
      s.(entries := s.entries[session := Entry(entry.pending - ids, WithoutMarkers(entry.overrides, ids))],
         requests := Resolve(s.requests, entry.pending * ids, Sent(Cancelled)))
  }

  function CloseSession(s: State, session: SessionId): State {
    if session !in s.entries then s
    else s.(entries := s.entries - {session},
            requests := Resolve(s.requests, s.entries[session].pending, Sent(Closed(session))))
  }

  function Apply(s: State, step: Step): State {
    match step
    case RegisterSession(session) => Register(s, session)
    case DropSession(session) => Drop(s, session)
    case Send(session, method_) => SendRequest(s, session, method_)
    case SidecarReply(id, payload) =>
      if id in s.requests && s.requests[id].reply.None?
      then s.(requests := s.requests[id := s.requests[id].(reply := Some(payload))]) else s
    case Poll(id) => PollRequest(s, id)
    case CancelPrompts(session) => CancelPending(s, session)
    case Close(session) => CloseSession(s, session)
    case ConfigFallback(_, session, option, category, value) =>
      if session !in s.entries then s
      else
        var entry := s.entries[session];
        var first := if option.Some? then entry.overrides[option.value := value] else entry.overrides;
        s.(entries := s.entries[session := entry.(overrides := first[category := value])])
  }

  function Run(s: State, steps: seq<Step>): State {
    if steps == [] then s else Apply(Run(s, steps[..|steps| - 1]), steps[|steps| - 1])
  }

  // ---------------------------------------------------------------------------
  // Pending requests and their channels
  // ---------------------------------------------------------------------------

  ghost predicate EntryConsistent(s: State, session: SessionId)
    requires session in s.entries
  {
    forall id :: id in s.entries[session].pending ==>
      id in s.requests && s.requests[id].session == session && s.requests[id].channel.Open?
          && s.requests[id].answer.None?
  }

  ghost predicate RequestConsistent(s: State, id: int)
    requires id in s.requests
  {
    var r := s.requests[id];
    && 0 < id < s.counter
    && (r.channel.Open? ==> r.answer.None? && r.session in s.entries && id in s.entries[r.session].pending)
    && (r.channel.Sent? && r.channel.answer.Closed? ==> r.channel.answer.session == r.session)
    && (r.channel.Sent? ==> !r.channel.answer.FromSidecar?)
  }

  /** The requests with an open resolver are exactly those pending in their session. */
  ghost predicate Consistent(s: State) {
    && 0 < s.counter
    && (forall session :: session in s.entries ==> EntryConsistent(s, session))
    && (forall id :: id in s.requests ==> RequestConsistent(s, id))
  }

  lemma SendConsistent(s: State, session: SessionId, method_: string)
    requires Consistent(s)
    ensures Consistent(SendRequest(s, session, method_))
  {
    var t := SendRequest(s, session, method_);
    assert forall id :: id in s.requests ==> RequestConsistent(s, id);
    forall other | other in t.entries
      ensures EntryConsistent(t, other)
    {
      assert EntryConsistent(s, other);
    }
    forall id | id in t.requests
      ensures RequestConsistent(t, id)
    {
      assert id in s.requests ==> RequestConsistent(s, id);
    }
  }

  /** Shrinking one entry and resolving the requests taken out of it. */
  lemma TakeOutConsistent(s: State, session: SessionId, ids: set<int>, fate: Channel, overrides: map<string, string>)
    requires Consistent(s) && session in s.entries
    requires fate == Dropped || fate == Sent(Closed(session)) || fate == Sent(Cancelled)
    ensures var pending := s.entries[session].pending;
            Consistent(State(s.entries[session := Entry(pending - ids, overrides)],
                Resolve(s.requests, pending * ids, fate), s.counter))
  {
    var pending := s.entries[session].pending;
    var t := State(s.entries[session := Entry(pending - ids, overrides)], Resolve(s.requests, pending * ids, fate),
             s.counter);
    assert EntryConsistent(s, session);
    forall other | other in t.entries
      ensures EntryConsistent(t, other)
    {
      assert EntryConsistent(s, other);
    }
    forall id | id in t.requests
      ensures RequestConsistent(t, id)
    {
      assert RequestConsistent(s, id);
    }
  }

  /** Removing one entry and resolving all the requests it held. */
  lemma RemoveConsistent(s: State, session: SessionId, fate: Channel)
    requires Consistent(s) && session in s.entries
    requires fate == Dropped || fate == Sent(Closed(session))
    ensures Consistent(State(s.entries - {session}, Resolve(s.requests, s.entries[session].pending, fate), s.counter))
  {
    var t := State(s.entries - {session}, Resolve(s.requests, s.entries[session].pending, fate), s.counter);
    assert EntryConsistent(s, session);
    forall other | other in t.entries
      ensures EntryConsistent(t, other)
    {
      assert EntryConsistent(s, other);
    }
    forall id | id in t.requests
      ensures RequestConsistent(t, id)
    {
      assert RequestConsistent(s, id);
    }
  }

  /** Changing the reply, or the answer of a request that is not pending, disturbs nothing. */
  lemma UpdateConsistent(s: State, id: int, r: Request)
    requires Consistent(s) && id in s.requests
    requires var q := s.requests[id];
             && r.session == q.session && r.channel == q.channel
             && (r.answer == q.answer || !q.channel.Open?)
    ensures Consistent(s.(requests := s.requests[id := r]))
  {
    var t := s.(requests := s.requests[id := r]);
    assert RequestConsistent(s, id);
    forall other | other in t.entries
      ensures EntryConsistent(t, other)
    {
      assert EntryConsistent(s, other);
    }
    forall i | i in t.requests
      ensures RequestConsistent(t, i)
    {
      assert RequestConsistent(s, i);
    }
  }

  lemma CleanupConsistent(s: State, session: SessionId, id: int)
    requires Consistent(s)
    ensures Consistent(Cleanup(s, session, id))
  {
    if session in s.entries {
      var entry := s.entries[session];
      TakeOutConsistent(s, session, {id}, Dropped, WithoutMarkers(entry.overrides, {id}));
      assert id in entry.pending ==> entry.pending * {id} == {id};
      assert id !in entry.pending ==> Resolve(s.requests, entry.pending * {id}, Dropped) == s.requests;
    }
  }

  lemma AnsweredConsistent(s: State, id: int, answer: Answer)
    requires Consistent(s) && id in s.requests && s.requests[id].answer.None?
    ensures Consistent(Answered(s, id, answer))
  {
    var r := s.requests[id];
    assert RequestConsistent(s, id);
    CleanupConsistent(s, r.session, id);
    var t := Cleanup(s, r.session, id);
    assert t.requests[id] == r.(channel := if r.channel.Open? then Dropped else r.channel) by {
      if r.session in s.entries {
        assert EntryConsistent(s, r.session);
      }
    }
    UpdateConsistent(t, id, t.requests[id].(answer := Some(answer)));
  }

  lemma FallbackConsistent(s: State, session: SessionId, overrides: map<string, string>)
    requires Consistent(s) && session in s.entries
    ensures Consistent(s.(entries := s.entries[session := s.entries[session].(overrides := overrides)]))
  {
    var t := s.(entries := s.entries[session := s.entries[session].(overrides := overrides)]);
    forall other | other in t.entries
      ensures EntryConsistent(t, other)
    {
      assert EntryConsistent(s, other);
    }
    forall id | id in t.requests
      ensures RequestConsistent(t, id)
    {
      assert RequestConsistent(s, id);
    }
  }

  lemma RegisterConsistent(s: State, session: SessionId)
    requires Consistent(s)
    ensures Consistent(Register(s, session))
  {
    var t := Register(s, session);
    forall other | other in t.entries
      ensures EntryConsistent(t, other)
    {
      assert other in s.entries ==> EntryConsistent(s, other);
    }
    forall id | id in t.requests
      ensures RequestConsistent(t, id)
    {
      assert RequestConsistent(s, id);
    }
  }

  lemma PollConsistent(s: State, id: int)
    requires Consistent(s)
    ensures Consistent(PollRequest(s, id))
  {
    if id in s.requests && s.requests[id].answer.None? {
      var r := s.requests[id];
      match r.channel
      case Sent(answer) => AnsweredConsistent(s, id, answer);
      case Dropped => AnsweredConsistent(s, id, Closed(r.session));
      case Open =>
        if r.reply.Some? { AnsweredConsistent(s, id, FromSidecar(r.reply.value)); }
    }
  }

  lemma StepConsistent(s: State, step: Step)
    requires Consistent(s)
    ensures Consistent(Apply(s, step))
  {
    match step
    case RegisterSession(session) => RegisterConsistent(s, session);
    case DropSession(session) =>
      if session in s.entries { RemoveConsistent(s, session, Dropped); }
    case Send(session, method_) => SendConsistent(s, session, method_);
    case SidecarReply(id, payload) =>
      if id in s.requests { UpdateConsistent(s, id, s.requests[id].(reply := Some(payload))); }
    case Poll(id) => PollConsistent(s, id);
    case CancelPrompts(session) =>
      if session in s.entries {
        var ids := PromptIds(s.entries[session].overrides);
        TakeOutConsistent(s, session, ids, Sent(Cancelled), WithoutMarkers(s.entries[session].overrides, ids));
      }
    case Close(session) =>
      if session in s.entries { RemoveConsistent(s, session, Sent(Closed(session))); }
    case ConfigFallback(_, session, option, category, value) =>
      if session in s.entries {
        var overrides := s.entries[session].overrides;
        var first := if option.Some? then overrides[option.value := value] else overrides;
        FallbackConsistent(s, session, first[category := value]);
      }
  }

  /** In every reachable state the open resolvers are exactly the pending ones. */
  lemma {:induction false} RunConsistent(steps: seq<Step>)
    ensures Consistent(Run(INITIAL, steps))
  {
    if steps != [] {
      RunConsistent(steps[..|steps| - 1]);
      StepConsistent(Run(INITIAL, steps[..|steps| - 1]), steps[|steps| - 1]);
    }
  }

  // ---------------------------------------------------------------------------
  // One answer each, and the close always wins
  // ---------------------------------------------------------------------------

  /** What a woken request would answer: the resolver's word, else the sidecar's. */
  function NextAnswer(r: Request): Option<Answer> {
    match r.channel
    case Sent(answer) => Some(answer)
    case Dropped => Some(Closed(r.session))
    case Open => if r.reply.Some? then Some(FromSidecar(r.reply.value)) else None
  }

  /** A request keeps its identity, a resolver that has spoken and an answer once given; it is
      only ever answered by being woken. */
  lemma StepFinal(s: State, step: Step, id: int)
    requires id in s.requests && id < s.counter
    ensures var t := Apply(s, step);
            && id in t.requests && id < t.counter
            && t.requests[id].session == s.requests[id].session
            && t.requests[id].method_ == s.requests[id].method_
            && (!s.requests[id].channel.Open? ==> t.requests[id].channel == s.requests[id].channel)
            && (s.requests[id].answer.Some? ==> t.requests[id].answer == s.requests[id].answer)
            && (s.requests[id].answer.None? ==>
                  t.requests[id].answer == if step == Poll(id) then NextAnswer(s.requests[id]) else None)
  {
  }

  lemma {:induction false} RunFinal(s: State, steps: seq<Step>, id: int)
    requires id in s.requests && id < s.counter
    ensures var t := Run(s, steps);
            && id in t.requests && id < t.counter
            && t.requests[id].session == s.requests[id].session
            && (!s.requests[id].channel.Open? ==> t.requests[id].channel == s.requests[id].channel)
            && (s.requests[id].answer.Some? ==> t.requests[id].answer == s.requests[id].answer)
            && (s.requests[id].answer.None? && !s.requests[id].channel.Open? ==>
                  t.requests[id].answer in {None, NextAnswer(s.requests[id])})
  {
    if steps != [] {
      var before := steps[..|steps| - 1];
      RunFinal(s, before, id);
      StepFinal(Run(s, before), steps[|steps| - 1], id);
    }
  }

  /** Every request pending when its session closes is answered with the closed response: it can get
      no other answer in any continuation, and it gets this one as soon as it is woken. */
  lemma ClosedForGood(before: seq<Step>, session: SessionId, id: int, after: seq<Step>)
    requires var s := Run(INITIAL, before); session in s.entries && id in s.entries[session].pending
    ensures var closed := CloseSession(Run(INITIAL, before), session);
            && id in Run(closed, after).requests
            && Run(closed, after).requests[id].answer in {None, Some(Closed(session))}
            && PollRequest(Run(closed, after), id).requests[id].answer == Some(Closed(session))
  {
    RunConsistent(before);
    var s := Run(INITIAL, before);
    assert EntryConsistent(s, session) && RequestConsistent(s, id);
    var closed := CloseSession(s, session);
    assert closed.requests[id].channel == Sent(Closed(session));
    RunFinal(closed, after, id);
    StepFinal(Run(closed, after), Poll(id), id);
  }

  /** A request is only ever left waiting while it is pending in a live session with no reply. */
  lemma NoneLeftHanging(steps: seq<Step>, id: int)
    requires var s := Run(INITIAL, steps); id in s.requests && s.requests[id].answer.None?
    ensures var s := Run(INITIAL, steps);
            PollRequest(s, id).requests[id].answer.None? <==>
            && s.requests[id].session in s.entries
            && id in s.entries[s.requests[id].session].pending
            && s.requests[id].reply.None?
  {
    RunConsistent(steps);
    var s := Run(INITIAL, steps);
    assert RequestConsistent(s, id);
    StepFinal(s, Poll(id), id);
    if s.requests[id].session in s.entries {
      assert EntryConsistent(s, s.requests[id].session);
    }
  }

  // ---------------------------------------------------------------------------
  // Method markers
  // ---------------------------------------------------------------------------

  /** A key that `cancel` reads a request id off. */
  predicate Marks(key: string) {
    HasPrefix(key) && ParseI64(Suffix(key)).Some? && ParseI64(Suffix(key)).value > 0
  }

  /** Config keys that cannot be mistaken for method markers. */
  predicate CleanStep(step: Step) {
    step.ConfigFallback? ==> !Marks(step.category) && (step.option.Some? ==> !Marks(step.option.value))
  }

  predicate Clean(steps: seq<Step>) {
    forall k :: 0 <= k < |steps| ==> CleanStep(steps[k])
  }

  /** The ids of the markers in an override map. */
  function MarkerIds(overrides: map<string, string>): set<int> {
    set key | key in overrides && Marks(key) :: ParseI64(Suffix(key)).value
  }

  /** Every pending request has its method under its marker, and there are no other markers. */
  ghost predicate EntryMarked(s: State, session: SessionId)
    requires session in s.entries
  {
    var entry := s.entries[session];
    && (forall id :: id in entry.pending && id < I64_LIMIT ==>
          id in s.requests && MarkerKey(id) in entry.overrides
              && entry.overrides[MarkerKey(id)] == s.requests[id].method_)
    && (forall key :: key in entry.overrides && Marks(key) ==> exists id :: id in entry.pending && key == MarkerKey(id))
  }

  ghost predicate CancelledArePrompts(s: State) {
    forall id :: id in s.requests ==>
      s.requests[id].channel == Sent(Cancelled) || s.requests[id].answer == Some(Cancelled) ==>
        s.requests[id].method_ == PROMPT
  }

  ghost predicate Marked(s: State) {
    CancelledArePrompts(s) && forall session :: session in s.entries ==> EntryMarked(s, session)
  }

  lemma MarkerRead(id: int)
    ensures HasPrefix(MarkerKey(id))
    ensures ParseI64(Suffix(MarkerKey(id))) == if -I64_LIMIT <= id < I64_LIMIT then Some(id) else None
  {
    ParsePrintInt(id);
    assert Suffix(MarkerKey(id)) == PrintInt(id);
  }

  lemma MarkerInjective(a: int, b: int)
    requires MarkerKey(a) == MarkerKey(b)
    ensures a == b
  {
    assert Suffix(MarkerKey(a)) == PrintInt(a) && Suffix(MarkerKey(b)) == PrintInt(b);
    PrintIntInjective(a, b);
  }

  lemma PendingMarked(s: State, session: SessionId, id: int)
    requires Consistent(s) && Marked(s) && session in s.entries && s.counter <= I64_LIMIT
             && id in s.entries[session].pending
    ensures var overrides := s.entries[session].overrides;
            && id in MarkerIds(overrides)
            && (s.requests[id].method_ == PROMPT ==> id in PromptIds(overrides))
  {
    assert EntryMarked(s, session) && EntryConsistent(s, session) && RequestConsistent(s, id);
    MarkerRead(id);
    assert Marks(MarkerKey(id));
  }

  lemma MarkedPending(s: State, session: SessionId, id: int)
    requires Marked(s) && session in s.entries && id in MarkerIds(s.entries[session].overrides)
    ensures id in s.entries[session].pending
  {
    var entry := s.entries[session];
    assert EntryMarked(s, session);
    var key :| key in entry.overrides && Marks(key) && ParseI64(Suffix(key)).value == id;
    var j :| j in entry.pending && key == MarkerKey(j);
    MarkerRead(j);
  }

  /** The stored marker ids are exactly the pending ids, and `cancel` reads off them exactly the
      pending prompts. */
  lemma MarkersExact(s: State, session: SessionId)
    requires Consistent(s) && Marked(s) && session in s.entries && s.counter <= I64_LIMIT
    ensures var entry := s.entries[session];
            && (forall id :: id in MarkerIds(entry.overrides) <==> id in entry.pending)
            && (forall id :: id in entry.pending ==>
                  id in s.requests && (id in PromptIds(entry.overrides) <==> s.requests[id].method_ == PROMPT))
  {
    var entry := s.entries[session];
    assert EntryMarked(s, session) && EntryConsistent(s, session);
    forall id
      ensures id in MarkerIds(entry.overrides) <==> id in entry.pending
    {
      if id in entry.pending {
        PendingMarked(s, session, id);
      } else if id in MarkerIds(entry.overrides) {
        MarkedPending(s, session, id);
      }
    }
    forall id | id in entry.pending
      ensures id in s.requests && (id in PromptIds(entry.overrides) <==> s.requests[id].method_ == PROMPT)
    {
      PendingMarked(s, session, id);
      if id in PromptIds(entry.overrides) {
        PromptIsPrompt(s, session, id);
      }
    }
  }

  lemma PromptIsPrompt(s: State, session: SessionId, id: int)
    requires Consistent(s) && session in s.entries && EntryMarked(s, session)
    requires id in s.entries[session].pending && id in PromptIds(s.entries[session].overrides)
    ensures id in s.requests && s.requests[id].method_ == PROMPT
  {
    var entry := s.entries[session];
    assert EntryConsistent(s, session) && RequestConsistent(s, id);
    var key :| key in entry.overrides && HasPrefix(key) && entry.overrides[key] == PROMPT
        && ParseI64(Suffix(key)) == Some(id);
    assert Marks(key);
    var j :| j in entry.pending && key == MarkerKey(j);
    MarkerRead(j);
  }

  /** Taking ids out of an entry together with their markers keeps markers and ids matched. */
  lemma WithoutMarked(s: State, t: State, session: SessionId, ids: set<int>)
    requires session in s.entries && session in t.entries && EntryMarked(s, session)
    requires var entry := s.entries[session];
             t.entries[session] == Entry(entry.pending - ids, WithoutMarkers(entry.overrides, ids))
    requires forall id :: id in s.requests ==> id in t.requests && t.requests[id].method_ == s.requests[id].method_
    ensures EntryMarked(t, session)
  {
    var entry := s.entries[session];
    var keys := set id | id in ids :: MarkerKey(id);
    forall id | id in entry.pending && id !in ids
      ensures MarkerKey(id) !in keys
    {
      if MarkerKey(id) in keys {
        var j :| j in ids && MarkerKey(j) == MarkerKey(id);
        MarkerInjective(id, j);
      }
    }
    forall key | key in t.entries[session].overrides && Marks(key)
      ensures exists id :: id in t.entries[session].pending && key == MarkerKey(id)
    {
      var id :| id in entry.pending && key == MarkerKey(id);
      assert id in ids ==> key in keys;
    }
  }

  lemma SendMarked(s: State, session: SessionId, method_: string)
    requires Consistent(s) && Marked(s) && session in s.entries
    ensures EntryMarked(SendRequest(s, session, method_), session)
  {
    var t := SendRequest(s, session, method_);
    var id, entry := s.counter, s.entries[session];
    assert EntryMarked(s, session) && EntryConsistent(s, session);
    MarkerRead(id);
    forall i | i in entry.pending
      ensures i != id && MarkerKey(i) != MarkerKey(id)
    {
      assert RequestConsistent(s, i);
      if MarkerKey(i) == MarkerKey(id) { MarkerInjective(i, id); }
    }
    forall key | key in t.entries[session].overrides && Marks(key)
      ensures exists i :: i in t.entries[session].pending && key == MarkerKey(i)
    {
      if key in entry.overrides {
        var i :| i in entry.pending && key == MarkerKey(i);
        assert i in t.entries[session].pending;
      } else {
        assert id in t.entries[session].pending;
      }
    }
  }

  lemma FallbackMarked(s: State, step: Step)
    requires Consistent(s) && Marked(s) && step.ConfigFallback? && CleanStep(step) && step.session in s.entries
    ensures EntryMarked(Apply(s, step), step.session)
  {
    var entry := s.entries[step.session];
    assert EntryMarked(s, step.session) && EntryConsistent(s, step.session);
    forall id | id in entry.pending && id < I64_LIMIT
      ensures Marks(MarkerKey(id))
    {
      assert RequestConsistent(s, id);
      MarkerRead(id);
    }
  }

  /** What each step does to an entry that was there. */
  lemma EntryStep(s: State, step: Step, session: SessionId)
    requires session in s.entries && session in Apply(s, step).entries
    ensures var e, f := s.entries[session], Apply(s, step).entries[session];
            || f == e
            || (step.Send? && step.session == session)
            || (step.ConfigFallback? && step.session == session)
            || (step.CancelPrompts? && step.session == session)
            || (step.Poll? && f == Entry(e.pending - {step.id}, WithoutMarkers(e.overrides, {step.id})))
  {
  }

  lemma EntryMarkedStep(s: State, step: Step, session: SessionId)
    requires Consistent(s) && Marked(s) && CleanStep(step) && session in Apply(s, step).entries
    ensures EntryMarked(Apply(s, step), session)
  {
    var t := Apply(s, step);
    forall id | id in s.requests
      ensures id in t.requests && t.requests[id].method_ == s.requests[id].method_
    {
      assert RequestConsistent(s, id);
      StepFinal(s, step, id);
    }
    if session in s.entries {
      OldEntryMarked(s, step, session);
    }
  }

  lemma OldEntryMarked(s: State, step: Step, session: SessionId)
    requires Consistent(s) && Marked(s) && CleanStep(step)
    requires session in s.entries && session in Apply(s, step).entries
    requires forall id :: id in s.requests ==>
               id in Apply(s, step).requests && Apply(s, step).requests[id].method_ == s.requests[id].method_
    ensures EntryMarked(Apply(s, step), session)
  {
    var t := Apply(s, step);
    var e, f := s.entries[session], t.entries[session];
    assert EntryMarked(s, session);
    EntryStep(s, step, session);
    if step.Send? && step.session == session {
      SendMarked(s, session, step.method_);
    } else if step.ConfigFallback? && step.session == session {
      FallbackMarked(s, step);
    } else if step.CancelPrompts? && step.session == session {
      WithoutMarked(s, t, session, PromptIds(e.overrides));
    } else if f != e {
      WithoutMarked(s, t, session, {step.id});
    }
  }

  /** The only new cancellations are of the requests `cancel` reads off the markers. */
  lemma NewlyCancelled(s: State, step: Step, id: int)
    requires Consistent(s) && id in s.requests && s.requests[id].channel != Sent(Cancelled)
    requires id in Apply(s, step).requests && Apply(s, step).requests[id].channel == Sent(Cancelled)
    ensures && step.CancelPrompts? && step.session in s.entries
            && id in s.entries[step.session].pending && id in PromptIds(s.entries[step.session].overrides)
  {
    assert RequestConsistent(s, id);
  }

  lemma StepMarked(s: State, step: Step)
    requires Consistent(s) && Marked(s) && CleanStep(step)
    ensures Marked(Apply(s, step))
  {
    var t := Apply(s, step);
    forall session | session in t.entries
      ensures EntryMarked(t, session)
    {
      EntryMarkedStep(s, step, session);
    }
    forall id | id in t.requests
        && (t.requests[id].channel == Sent(Cancelled) || t.requests[id].answer == Some(Cancelled))
      ensures t.requests[id].method_ == PROMPT
    {
      if id in s.requests {
        assert RequestConsistent(s, id);
        StepFinal(s, step, id);
        if s.requests[id].channel != Sent(Cancelled) && s.requests[id].answer != Some(Cancelled) {
          if t.requests[id].channel == Sent(Cancelled) {
            NewlyCancelled(s, step, id);
            assert EntryMarked(s, step.session);
            PromptIsPrompt(s, step.session, id);
          }
        }
      }
    }
  }

  /** As long as no config key is shaped like a marker, markers and pending ids agree in every
      reachable state and only prompts are ever cancelled. */
  lemma {:induction false} RunMarked(steps: seq<Step>)
    requires Clean(steps)
    ensures Marked(Run(INITIAL, steps))
  {
    if steps != [] {
      RunMarked(steps[..|steps| - 1]);
      RunConsistent(steps[..|steps| - 1]);
      StepMarked(Run(INITIAL, steps[..|steps| - 1]), steps[|steps| - 1]);
    }
  }

  /** Every prompt pending when its session is cancelled is answered with the cancelled response: it can
      get no other answer in any continuation, and it gets this one as soon as it is woken. */
  lemma CancelledForGood(before: seq<Step>, session: SessionId, id: int, after: seq<Step>)
    requires Clean(before) && Run(INITIAL, before).counter <= I64_LIMIT
    requires var s := Run(INITIAL, before);
             session in s.entries && id in s.entries[session].pending
             && id in s.requests && s.requests[id].method_ == PROMPT
    ensures var t := Run(Apply(Run(INITIAL, before), CancelPrompts(session)), after);
            && id in t.requests && t.requests[id].answer in {None, Some(Cancelled)}
            && PollRequest(t, id).requests[id].answer == Some(Cancelled)
  {
    RunConsistent(before);
    RunMarked(before);
    CancelSpeaks(Run(INITIAL, before), session, id);
    SpokenIsAnswered(Apply(Run(INITIAL, before), CancelPrompts(session)), after, id, Cancelled);
  }

  lemma CancelSpeaks(s: State, session: SessionId, id: int)
    requires Consistent(s) && Marked(s) && s.counter <= I64_LIMIT
    requires session in s.entries && id in s.entries[session].pending
    requires id in s.requests && s.requests[id].method_ == PROMPT
    ensures var t := Apply(s, CancelPrompts(session));
            && id in t.requests && id < t.counter
            && t.requests[id].channel == Sent(Cancelled) && t.requests[id].answer.None?
  {
    PendingIsOpen(s, session, id);
    PendingMarked(s, session, id);
    CancelResolves(s, session, id);
  }

  lemma PendingIsOpen(s: State, session: SessionId, id: int)
    requires Consistent(s) && session in s.entries && id in s.entries[session].pending
    ensures id in s.requests && id < s.counter && s.requests[id].channel.Open? && s.requests[id].answer.None?
  {
    assert EntryConsistent(s, session) && RequestConsistent(s, id);
  }

  lemma CancelResolves(s: State, session: SessionId, id: int)
    requires session in s.entries && id in s.entries[session].pending && id in PromptIds(s.entries[session].overrides)
    requires id in s.requests && s.requests[id].channel.Open?
    ensures Apply(s, CancelPrompts(session)).counter == s.counter
    ensures id in Apply(s, CancelPrompts(session)).requests
    ensures Apply(s, CancelPrompts(session)).requests[id] == s.requests[id].(channel := Sent(Cancelled))
  {
  }

  /** What a resolver has said is the answer, in every continuation. */
  lemma SpokenIsAnswered(s: State, steps: seq<Step>, id: int, answer: Answer)
    requires id in s.requests && id < s.counter
    requires s.requests[id].channel == Sent(answer) && s.requests[id].answer.None?
    ensures var t := Run(s, steps);
            && id in t.requests && t.requests[id].answer in {None, Some(answer)}
            && PollRequest(t, id).requests[id].answer == Some(answer)
  {
    RunFinal(s, steps, id);
    StepFinal(Run(s, steps), Poll(id), id);
  }

  /** The first reply of the sidecar is the answer, as long as neither cancel nor close comes first. */
  lemma RepliedIsAnswered(before: seq<Step>, id: int, payload: string, after: seq<Step>)
    requires var s := Run(INITIAL, before); id in s.requests && s.requests[id].reply.None?
    ensures var t := Run(Apply(Run(INITIAL, before), SidecarReply(id, payload)), after);
            && id in t.requests
            && (t.requests[id].answer.None? && t.requests[id].channel.Open? ==>
                  PollRequest(t, id).requests[id].answer == Some(FromSidecar(payload)))
  {
    RunConsistent(before);
    assert RequestConsistent(Run(INITIAL, before), id);
    ReplyStays(Apply(Run(INITIAL, before), SidecarReply(id, payload)), id, after);
  }

  lemma {:induction false} ReplyStays(s: State, id: int, steps: seq<Step>)
    requires id in s.requests && id < s.counter && s.requests[id].reply.Some?
    ensures var t := Run(s, steps);
            id in t.requests && id < t.counter && t.requests[id].reply == s.requests[id].reply
  {
    if steps != [] {
      ReplyStays(s, id, steps[..|steps| - 1]);
      ReplyStep(Run(s, steps[..|steps| - 1]), steps[|steps| - 1], id);
    }
  }

  lemma ReplyStep(s: State, step: Step, id: int)
    requires id in s.requests && id < s.counter && s.requests[id].reply.Some?
    ensures var t := Apply(s, step);
            id in t.requests && id < t.counter && t.requests[id].reply == s.requests[id].reply
  {
  }

  // ---------------------------------------------------------------------------
  // A config key shaped like a marker
  // ---------------------------------------------------------------------------

  const SET_CONFIG_OPTION := "session/set_config_option"

  /** The sidecar's word that an agent does not know `session/set_config_option`. */
  const METHOD_NOT_FOUND := "-32601"

  /** A fallback belongs to a `session/set_config_option` request of the session that the sidecar has
      answered so, and sets one of the two categories there are. */
  ghost predicate FollowsItsRequest(s: State, step: Step)
    requires step.ConfigFallback?
  {
    && step.request in s.requests
    && s.requests[step.request].session == step.session
    && s.requests[step.request].method_ == SET_CONFIG_OPTION
    && s.requests[step.request].answer == Some(FromSidecar(METHOD_NOT_FOUND))
    && (step.category == "model" || step.category == "thought_level")
  }

  /** The runs a client can make: every fallback follows a request of its own. */
  ghost predicate Makeable(steps: seq<Step>) {
    forall k :: 0 <= k < |steps| && steps[k].ConfigFallback? ==>
      && FollowsItsRequest(Run(INITIAL, steps[..k]), steps[k])
      && forall j :: 0 <= j < k && steps[j].ConfigFallback? ==> steps[j].request != steps[k].request
  }

  /** All config keys of the run are `key` or not marker-shaped. */
  predicate NoMarkerBut(steps: seq<Step>, key: string) {
    forall k :: 0 <= k < |steps| && steps[k].ConfigFallback? ==>
      && (steps[k].category == key || !Marks(steps[k].category))
      && (steps[k].option.Some? ==> steps[k].option.value == key || !Marks(steps[k].option.value))
  }

  lemma {:induction false} RunConcat(s: State, a: seq<Step>, b: seq<Step>)
    ensures Run(s, a + b) == Run(Run(s, a), b)
    decreases |b|
  {
    if b == [] {
      assert a + b == a;
    } else {
      assert (a + b)[..|a + b| - 1] == a + b[..|b| - 1];
      RunConcat(s, a, b[..|b| - 1]);
    }
  }

  lemma OneMore(s: State, steps: seq<Step>, step: Step)
    ensures Run(s, steps + [step]) == Apply(Run(s, steps), step)
  {
    assert (steps + [step])[..|steps|] == steps;
  }

  const UNKNOWN: Step := Send("unknown", "session/set_mode")
  const REGISTER: Step := RegisterSession("s")
  const SET_MODE: Step := Send("s", "session/set_mode")
  const SET_CONFIG: Step := Send("s", SET_CONFIG_OPTION)

  /** Requests to an unknown session only use up request ids. */
  lemma {:induction false} UseUpIds(s: State, n: nat)
    requires "unknown" !in s.entries
    ensures Run(s, seq(n, _ => UNKNOWN)) == s.(counter := s.counter + n)
  {
    if n > 0 {
      UseUpIds(s, n - 1);
      assert seq(n, _ => UNKNOWN)[..n - 1] == seq(n - 1, _ => UNKNOWN);
    }
  }

  /** The session is there and the next request gets id `n`. */
  lemma Started(n: int)
    requires n > 0
    ensures var s := Run(INITIAL, [REGISTER] + seq(n - 1, _ => UNKNOWN));
            "s" in s.entries && s.counter == n
  {
    var s := Apply(INITIAL, REGISTER);
    assert Run(INITIAL, [REGISTER]) == s by {
      OneMore(INITIAL, [], REGISTER);
      assert [] + [REGISTER] == [REGISTER];
    }
    assert "unknown"[0] != "s"[0];
    UseUpIds(s, n - 1);
    RunConcat(INITIAL, [REGISTER], seq(n - 1, _ => UNKNOWN));
  }

  /** Request `n`, which is no prompt, waits for its answer. */
  ghost predicate Waiting(s: State, n: int) {
    && "s" in s.entries && n in s.entries["s"].pending
    && n in s.requests && s.requests[n] == Request("s", "session/set_mode", Open, None, None)
  }

  lemma ModeSent(s: State, n: int)
    requires "s" in s.entries && s.counter == n
    ensures Waiting(Apply(s, SET_MODE), n) && Apply(s, SET_MODE).counter == n + 1
  {
  }

  lemma ConfigSent(s: State, n: int)
    requires Waiting(s, n) && s.counter == n + 1
    ensures var t := Apply(s, SET_CONFIG);
            && Waiting(t, n) && n + 1 in t.requests
            && t.requests[n + 1] == Request("s", SET_CONFIG_OPTION, Open, None, None)
  {
  }

  lemma ConfigAnswered(s: State, n: int)
    requires Waiting(s, n) && n + 1 in s.requests
    requires s.requests[n + 1] == Request("s", SET_CONFIG_OPTION, Open, None, None)
    ensures var t := Apply(Apply(s, SidecarReply(n + 1, METHOD_NOT_FOUND)), Poll(n + 1));
            && Waiting(t, n) && n + 1 in t.requests
            && t.requests[n + 1].session == "s" && t.requests[n + 1].method_ == SET_CONFIG_OPTION
            && t.requests[n + 1].answer == Some(FromSidecar(METHOD_NOT_FOUND))
  {
  }

  function Fallback(n: int, key: string): Step {
    ConfigFallback(n, "s", Some(key), "model", PROMPT)
  }

  lemma FellBack(s: State, n: int, key: string)
    requires Waiting(s, n) && Marks(key)
    ensures var t := Apply(s, Fallback(n + 1, key));
            Waiting(t, n) && key in t.entries["s"].overrides && t.entries["s"].overrides[key] == PROMPT
  {
    assert key[0] == PENDING_METHOD_PREFIX[0] && key != "model";
  }

  lemma AfterCancel(t: State, key: string, n: int)
    requires Marks(key) && ParseI64(Suffix(key)).value == n && Waiting(t, n)
    requires key in t.entries["s"].overrides && t.entries["s"].overrides[key] == PROMPT
    ensures !CancelledArePrompts(Apply(t, CancelPrompts("s")))
  {
    assert n in PromptIds(t.entries["s"].overrides);
    assert Apply(t, CancelPrompts("s")).requests[n].channel == Sent(Cancelled);
    assert "session/set_mode"[8] != PROMPT[8];
  }

  /** What comes before the fallback: the ids below `n` are used up, `n` waits, and the request for the
      fallback has been answered. */
  function Prelude(n: int): seq<Step>
    requires n > 0
  {
    [REGISTER] + seq(n - 1, _ => UNKNOWN) + [SET_MODE] + [SET_CONFIG]
    + [SidecarReply(n + 1, METHOD_NOT_FOUND)] + [Poll(n + 1)]
  }

  lemma PreludeLeads(n: int, key: string)
    requires n > 0
    ensures var s := Run(INITIAL, Prelude(n)); Waiting(s, n) && FollowsItsRequest(s, Fallback(n + 1, key))
  {
    var ids := [REGISTER] + seq(n - 1, _ => UNKNOWN);
    var s := Run(INITIAL, ids);
    Started(n);
    ModeSent(s, n);
    ConfigSent(Apply(s, SET_MODE), n);
    ConfigAnswered(Apply(Apply(s, SET_MODE), SET_CONFIG), n);
    OneMore(INITIAL, ids, SET_MODE);
    OneMore(INITIAL, ids + [SET_MODE], SET_CONFIG);
    OneMore(INITIAL, ids + [SET_MODE] + [SET_CONFIG], SidecarReply(n + 1, METHOD_NOT_FOUND));
    OneMore(INITIAL, ids + [SET_MODE] + [SET_CONFIG] + [SidecarReply(n + 1, METHOD_NOT_FOUND)], Poll(n + 1));
  }

  lemma PreludeIsPlain(n: int)
    requires n > 0
    ensures forall k :: 0 <= k < |Prelude(n)| ==> !Prelude(n)[k].ConfigFallback?
  {
  }

  lemma OneFallback(steps: seq<Step>, at: int, key: string)
    requires 0 <= at < |steps| && forall k :: 0 <= k < |steps| ==> (steps[k].ConfigFallback? <==> k == at)
    requires FollowsItsRequest(Run(INITIAL, steps[..at]), steps[at])
    requires steps[at].option == Some(key) && !Marks(steps[at].category)
    ensures Makeable(steps) && NoMarkerBut(steps, key)
  {
  }

  lemma ThreeParts(before: seq<Step>, fallback: Step, after: Step)
    requires forall k :: 0 <= k < |before| ==> !before[k].ConfigFallback?
    requires fallback.ConfigFallback? && !after.ConfigFallback?
    ensures var steps := before + [fallback] + [after];
            && steps[..|before|] == before && steps[|before|] == fallback
            && forall k :: 0 <= k < |steps| ==> (steps[k].ConfigFallback? <==> k == |before|)
  {
  }

  /** With any key shaped like a marker there is a run the client can make in which a request that is
      no prompt is cancelled. */
  lemma MarkerKeyBreaks(key: string) returns (steps: seq<Step>)
    requires Marks(key)
    ensures Makeable(steps) && NoMarkerBut(steps, key) && !CancelledArePrompts(Run(INITIAL, steps))
  {
    var n := ParseI64(Suffix(key)).value;
    var before := Prelude(n);
    var fallback := Fallback(n + 1, key);
    steps := before + [fallback] + [CancelPrompts("s")];
    PreludeLeads(n, key);
    PreludeIsPlain(n);
    assert !Marks("model");
    ThreeParts(before, fallback, CancelPrompts("s"));
    OneFallback(steps, |before|, key);
    OneMore(INITIAL, before, fallback);
    OneMore(INITIAL, before + [fallback], CancelPrompts("s"));
    FellBack(Run(INITIAL, before), n, key);
    AfterCancel(Run(INITIAL, before + [fallback]), key, n);
  }

  /** The marker of the first request will do as such a key. */
  lemma FirstMarkerBreaks() returns (steps: seq<Step>)
    ensures Makeable(steps) && NoMarkerBut(steps, "__pending_method::1") && !CancelledArePrompts(Run(INITIAL, steps))
  {
    MarkerRead(1);
    assert Print(1) == "1";
    assert MarkerKey(1) == "__pending_method::1";
    steps := MarkerKeyBreaks(MarkerKey(1));
  }

  /** Only prompts are ever cancelled, in every run the client can make with `key` as a config key,
      exactly when `key` is not shaped like a marker. */
  lemma OnlyPromptsCancelledIff(key: string)
    ensures (forall steps :: Makeable(steps) && NoMarkerBut(steps, key) ==> CancelledArePrompts(Run(INITIAL, steps)))
            <==> !Marks(key)
  {
    if Marks(key) {
      var steps := MarkerKeyBreaks(key);
    } else {
      forall steps | Makeable(steps) && NoMarkerBut(steps, key)
        ensures CancelledArePrompts(Run(INITIAL, steps))
      {
        RunMarked(steps);
      }
    }
  }

  // ---------------------------------------------------------------------------
  // The session table
  // ---------------------------------------------------------------------------

  lemma ResolveTwice(requests: map<int, Request>, a: set<int>, b: set<int>, fate: Channel)
    requires !fate.Open?
    ensures Resolve(Resolve(requests, a, fate), b, fate) == Resolve(requests, a + b, fate)
  {
  }

  lemma WithoutMarkersTwice(overrides: map<string, string>, a: set<int>, id: int)
    ensures WithoutMarkers(overrides, a) - {MarkerKey(id)} == WithoutMarkers(overrides, a + {id})
  {
    assert (set i | i in a + {id} :: MarkerKey(i)) == (set i | i in a :: MarkerKey(i)) + {MarkerKey(id)};
  }

  lemma ElementsPrefix(ids: seq<int>, i: int)
    requires 0 <= i < |ids|
    ensures Elements(ids[..i + 1]) == Elements(ids[..i]) + {ids[i]}
  {
    assert ids[..i + 1] == ids[..i] + [ids[i]];
  }

  /** The loop cancel and close share: for each id, take out its sender (if it is still there) and
      speak through it, then remove its marker. */
  method ResolveEach(entry: Entry, requests: map<int, Request>, ids: seq<int>, fate: Channel)
    returns (entry': Entry, requests': map<int, Request>, any: bool)
    requires !fate.Open?
    ensures entry' == Entry(entry.pending - Elements(ids), WithoutMarkers(entry.overrides, Elements(ids)))
    ensures requests' == Resolve(requests, entry.pending * Elements(ids), fate)
    ensures any <==> entry.pending * Elements(ids) != {}
  {
    entry', requests', any := entry, requests, false;
    var i := 0;
    assert Elements(ids[..0]) == {};
    while i < |ids|
      invariant 0 <= i <= |ids|
      invariant entry'.pending == entry.pending - Elements(ids[..i])
      invariant entry'.overrides == WithoutMarkers(entry.overrides, Elements(ids[..i]))
      invariant requests' == Resolve(requests, entry.pending * Elements(ids[..i]), fate)
      invariant any <==> entry.pending * Elements(ids[..i]) != {}
    {
      var id := ids[i];
      ElementsPrefix(ids, i);
      WithoutMarkersTwice(entry.overrides, Elements(ids[..i]), id);
      if id in entry'.pending {
        ResolveTwice(requests, entry.pending * Elements(ids[..i]), {id}, fate);
        assert entry.pending * Elements(ids[..i + 1]) == entry.pending * Elements(ids[..i]) + {id};
        requests' := Resolve(requests', {id}, fate);
        any := true;
      } else {
        assert entry.pending * Elements(ids[..i + 1]) == entry.pending * Elements(ids[..i]);
      }
      entry' := Entry(entry'.pending - {id}, entry'.overrides - {MarkerKey(id)});
      i := i + 1;
    }
    assert ids[..i] == ids;
  }

  /** `trace` are the steps so far, so everything proved of runs holds of the object. */
  class SessionTable {
    var entries: map<SessionId, Entry>
    var requests: map<int, Request>
    var counter: int
    ghost var trace: seq<Step>

    ghost function View(): State
      reads this
    {
      State(entries, requests, counter)
    }

    ghost predicate Valid()
      reads this
    {
      View() == Run(INITIAL, trace)
    }

    constructor ()
      ensures Valid() && trace == []
    {
      entries, requests, counter, trace := map[], map[], 1, [];
    }

    ghost method Took(step: Step)
      requires View() == Apply(Run(INITIAL, trace), step)
      modifies `trace
      ensures Valid() && trace == old(trace) + [step]
    {
      assert (trace + [step])[..|trace|] == trace;
      trace := trace + [step];
    }

    lemma StaysConsistent()
      requires Valid()
      ensures Consistent(View()) && (Clean(trace) ==> Marked(View()))
    {
      RunConsistent(trace);
      if Clean(trace) {
        RunMarked(trace);
      }
    }

    /** Registering a live id again leaves the old entry in place. */
    method RegisterSession(session: SessionId)
      requires Valid()
      modifies this
      ensures View() == Apply(old(View()), Step.RegisterSession(session))
      ensures Valid() && trace == old(trace) + [Step.RegisterSession(session)]
    {
      if session !in entries {
        entries := entries[session := Entry({}, map[])];
      }
      Took(Step.RegisterSession(session));
    }

    method SendSessionRequest(session: SessionId, method_: string) returns (id: Option<int>)
      requires Valid()
      modifies this
      ensures View() == Apply(old(View()), Send(session, method_))
      ensures Valid() && trace == old(trace) + [Send(session, method_)]
      ensures id == if session in old(entries) then Some(old(counter)) else None
    {
      if method_ == PROMPT && session !in entries {
        Took(Send(session, method_));
        return None;
      }
      var resolver := counter;
      counter := counter + 1;
      if session !in entries {
        Took(Send(session, method_));
        return None;
      }
      var entry := entries[session];
      var key := MarkerKey(resolver);
      var overrides := entry.overrides;
      if key !in overrides {
        overrides := overrides[key := method_];
      }
      requests := requests[resolver := Request(session, method_, Open, None, None)];
      entries := entries[session := Entry(entry.pending + {resolver}, overrides)];
      id := Some(resolver);
      Took(Send(session, method_));
    }

    method CleanupPendingResolver(session: SessionId, id: int)
      modifies `entries, `requests
      ensures View() == Cleanup(old(View()), session, id)
    {
      if session in entries {
        var entry := entries[session];
        if id in entry.pending {
          requests := Resolve(requests, {id}, Dropped);
        }
        entries := entries[session := Entry(entry.pending - {id}, WithoutMarkers(entry.overrides, {id}))];
      }
    }

    /** The waiting request is woken. The local resolver is asked first, the sidecar second; either
        way the resolver slot is cleaned up before the answer is returned. */
    method WakeRequest(id: int) returns (answer: Option<Answer>)
      requires Valid()
      modifies this
      ensures View() == Apply(old(View()), Poll(id))
      ensures Valid() && trace == old(trace) + [Poll(id)]
      ensures answer == if id in requests then requests[id].answer else None
      ensures Clean(trace) && answer == Some(Cancelled) ==> requests[id].method_ == PROMPT
    {
      if id !in requests {
        Took(Poll(id));
        return None;
      }
      var r := requests[id];
      if r.answer.Some? {
        Took(Poll(id));
        StaysConsistent();
        return r.answer;
      }
      match r.channel {
        case Sent(said) => answer := Some(said);
        case Dropped => answer := Some(Closed(r.session));
        case Open => answer := if r.reply.Some? then Some(FromSidecar(r.reply.value)) else None;
      }
      if answer.Some? {
        CleanupPendingResolver(r.session, id);
        requests := requests[id := r.(channel := if r.channel.Open? then Dropped else r.channel, answer := answer)];
      }
      Took(Poll(id));
      StaysConsistent();
    }

    /** Records a config value under the matching option id, if there is one, and the category. */
    method ApplyConfigFallback(ghost request: int, session: SessionId, option: Option<string>, category: string,
                               value: string)
      requires Valid()
      modifies this
      ensures View() == Apply(old(View()), ConfigFallback(request, session, option, category, value))
      ensures Valid() && trace == old(trace) + [ConfigFallback(request, session, option, category, value)]
    {
      if session in entries {
        var entry := entries[session];
        var overrides := entry.overrides;
        if option.Some? {
          overrides := overrides[option.value := value];
        }
        entries := entries[session := entry.(overrides := overrides[category := value])];
      }
      Took(ConfigFallback(request, session, option, category, value));
    }

    method CancelPendingPromptRequests(session: SessionId) returns (cancelled: bool)
      requires Valid()
      modifies this
      ensures View() == Apply(old(View()), CancelPrompts(session))
      ensures Valid() && trace == old(trace) + [CancelPrompts(session)]
      ensures cancelled <==> session in old(entries)
                             && old(entries)[session].pending * PromptIds(old(entries)[session].overrides) != {}
    {
      cancelled := false;
      if session in entries {
        var ids := PromptIds(entries[session].overrides);
        assert Elements(Sorted(ids)) == ids;
        var entry;
        entry, requests, cancelled := ResolveEach(entries[session], requests, Sorted(ids), Sent(Cancelled));
        entries := entries[session := entry];
      }
      Took(CancelPrompts(session));
    }

    method AbortPendingSessionRequests(session: SessionId)
      modifies `entries, `requests
      ensures session !in old(entries) ==> entries == old(entries) && requests == old(requests)
      ensures session in old(entries) ==>
                var entry := old(entries)[session];
                && entries == old(entries)[session := Entry({}, WithoutMarkers(entry.overrides, entry.pending))]
                && requests == Resolve(old(requests), entry.pending, Sent(Closed(session)))
    {
      if session in entries {
        var ids := entries[session].pending;
        assert Elements(Sorted(ids)) == ids && ids * ids == ids && ids - ids == {};
        var entry, any;
        entry, requests, any := ResolveEach(entries[session], requests, Sorted(ids), Sent(Closed(session)));
        entries := entries[session := entry];
      }
    }

    /** Abort, then deregister. */
    method CloseSessionInternal(session: SessionId)
      requires Valid()
      modifies this
      ensures View() == Apply(old(View()), Close(session))
      ensures Valid() && trace == old(trace) + [Close(session)]
    {
      AbortPendingSessionRequests(session);
      entries := entries - {session};
      Took(Close(session));
    }

    /** A failed hydration removes the entry, and with it the resolvers it holds. */
    method DropSession(session: SessionId)
      requires Valid()
      modifies this
      ensures View() == Apply(old(View()), Step.DropSession(session))
      ensures Valid() && trace == old(trace) + [Step.DropSession(session)]
    {
      if session in entries {
        requests := Resolve(requests, entries[session].pending, Dropped);
        entries := entries - {session};
      }
      Took(Step.DropSession(session));
    }

    /** The sidecar's reply to a request has arrived. */
    method ReceiveReply(id: int, payload: string)
      requires Valid()
      modifies this
      ensures View() == Apply(old(View()), SidecarReply(id, payload))
      ensures Valid() && trace == old(trace) + [SidecarReply(id, payload)]
    {
      if id in requests && requests[id].reply.None? {
        requests := requests[id := requests[id].(reply := Some(payload))];
      }
      Took(SidecarReply(id, payload));
    }
  }
}
