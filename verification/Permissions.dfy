/**
Permission requests of one session: each delivery waits on a reply slot that the host, a
subscriber's responder (through a bridge task), the timeout and a close all race for.
 */
module Permissions {
  import opened Core

  datatype Reply = Once | Always | Reject

  /** The reply slot's channel: sender still stored, reply sent, or sender gone. */
  datatype Slot = Open | Sent(reply: Reply) | Dropped

  /** A responder and its clones share one sender; the bridge task forwards what it says. */
  datatype Responder = Unused | Said(reply: Reply) | Bridged

  datatype Delivery = Delivery(
    permission: string,
    slot: Slot,
    responder: Responder,
    timedOut: bool,
    settled: Option<Reply>)

  /** `slots` maps a permission id to the delivery whose sender is stored under it. */
  datatype State = State(live: bool, slots: map<string, int>, deliveries: seq<Delivery>)

  const INITIAL := State(false, map[], [])

  datatype Step =
    | Register
    | Deliver(permission: string, subscribed: bool)
    | HostReply(permission: string, reply: Reply)
    | Respond(delivery: int, reply: Reply)
    | BridgeTurn(delivery: int)
    | TimerElapses(delivery: int)
    | Poll(delivery: int, timerFirst: bool)
    | Close

  // ---------------------------------------------------------------------------
  // Steps
  // ---------------------------------------------------------------------------

  /** Set the slot of delivery `d`, if it is still open. */
  function SetSlot(deliveries: seq<Delivery>, d: int, slot: Slot): (r: seq<Delivery>)
    ensures |r| == |deliveries|
  {
    if 0 <= d < |deliveries| && deliveries[d].slot.Open?
    then deliveries[d := deliveries[d].(slot := slot)] else deliveries
  }

  /** Take the sender stored under a permission id, if there is one, and give it its fate. */
  function TakeSlot(s: State, permission: string, fate: Slot): State {
    if !s.live || permission !in s.slots then s
    else s.(slots := s.slots - {permission}, deliveries := SetSlot(s.deliveries, s.slots[permission], fate))
  }

  /** Without session or subscriber the request is rejected at once and no responder is handed out. A
      slot already taken by the same permission id stays with its first owner and the new sender is
      lost. */
  function DeliverRequest(s: State, permission: string, subscribed: bool): State {
    if !s.live || !subscribed then
      s.(deliveries := s.deliveries + [Delivery(permission, Dropped, Bridged, false, Some(Reject))])
    else if permission in s.slots then
      s.(deliveries := s.deliveries + [Delivery(permission, Dropped, Unused, false, None)])
    else
      s.(slots := s.slots[permission := |s.deliveries|],
         deliveries := s.deliveries + [Delivery(permission, Open, Unused, false, None)])
  }

  function Settle(s: State, d: int, reply: Reply): State
    requires 0 <= d < |s.deliveries|
  {
    s.(deliveries := s.deliveries[d := s.deliveries[d].(settled := Some(reply))])
  }

  /** The waiting delivery is woken. When slot and timer are both ready either may be taken. */
  function PollDelivery(s: State, d: int, timerFirst: bool): State {
    if !(0 <= d < |s.deliveries|) || s.deliveries[d].settled.Some? then s
    else
      var v := s.deliveries[d];
      if !v.slot.Open? && !(v.timedOut && timerFirst) then
        Settle(s, d, if v.slot.Sent? then v.slot.reply else Reject)
      else if v.timedOut then Settle(TakeSlot(s, v.permission, Dropped), d, Reject)
      else s
  }

  function CloseAll(s: State): State {
    State(false, map[], seq(|s.deliveries|, i requires 0 <= i < |s.deliveries| =>
      if s.deliveries[i].slot.Open? then s.deliveries[i].(slot := Dropped) else s.deliveries[i]))
  }

  function Apply(s: State, step: Step): State {
    match step
    case Register => if s.live then s else s.(live := true, slots := map[])
    case Deliver(permission, subscribed) => DeliverRequest(s, permission, subscribed)
    case HostReply(permission, reply) => TakeSlot(s, permission, Sent(reply))
    case Respond(d, reply) =>
      if 0 <= d < |s.deliveries| && s.deliveries[d].responder.Unused?
      then s.(deliveries := s.deliveries[d := s.deliveries[d].(responder := Said(reply))]) else s
    case BridgeTurn(d) =>
      if 0 <= d < |s.deliveries| && s.deliveries[d].responder.Said? then
        var v := s.deliveries[d];
        TakeSlot(s.(deliveries := s.deliveries[d := v.(responder := Bridged)]), v.permission, Sent(v.responder.reply))
      else s
    case TimerElapses(d) =>
      if 0 <= d < |s.deliveries| then s.(deliveries := s.deliveries[d := s.deliveries[d].(timedOut := true)]) else s
    case Poll(d, timerFirst) => PollDelivery(s, d, timerFirst)
    case Close => if s.live then CloseAll(s) else s
  }

  function Run(s: State, steps: seq<Step>): State {
    if steps == [] then s else Apply(Run(s, steps[..|steps| - 1]), steps[|steps| - 1])
  }

  // ---------------------------------------------------------------------------
  // Invariant
  // ---------------------------------------------------------------------------

  ghost predicate SlotOk(s: State, permission: string)
    requires permission in s.slots
  {
    var d := s.slots[permission];
    0 <= d < |s.deliveries| && s.deliveries[d].permission == permission && s.deliveries[d].slot.Open?
  }

  ghost predicate DeliveryOk(s: State, d: int)
    requires 0 <= d < |s.deliveries|
  {
    var v := s.deliveries[d];
    && (v.slot.Open? ==> s.live && v.permission in s.slots && s.slots[v.permission] == d && v.settled.None?)
    && (v.settled.Some? ==> v.settled.value == Reject || v.slot == Sent(v.settled.value))
    && (v.settled == Some(Reject) && v.slot.Sent? ==> v.timedOut || v.slot.reply == Reject)
  }

  ghost predicate Inv(s: State) {
    && (s.live || s.slots == map[])
    && (forall p :: p in s.slots ==> SlotOk(s, p))
    && (forall d :: 0 <= d < |s.deliveries| ==> DeliveryOk(s, d))
  }

  lemma TakeSlotKeeps(s: State, permission: string, fate: Slot)
    requires Inv(s) && !fate.Open?
    ensures Inv(TakeSlot(s, permission, fate))
  {
    var t := TakeSlot(s, permission, fate);
    forall p | p in t.slots
      ensures SlotOk(t, p)
    {
      assert SlotOk(s, p);
    }
    forall d | 0 <= d < |t.deliveries|
      ensures DeliveryOk(t, d)
    {
      assert DeliveryOk(s, d);
      if permission in s.slots {
        assert SlotOk(s, permission);
      }
    }
  }

  /** Changing one delivery without touching its slot or permission. */
  lemma UpdateKeeps(s: State, d: int, v: Delivery)
    requires Inv(s) && 0 <= d < |s.deliveries|
    requires v.permission == s.deliveries[d].permission && v.slot == s.deliveries[d].slot
    requires s.deliveries[d].timedOut ==> v.timedOut
    requires v.settled == s.deliveries[d].settled
             || (!v.slot.Open? && v.settled.Some?
                 && (v.slot == Sent(v.settled.value) || (v.settled.value == Reject && (v.slot.Sent? ==> v.timedOut))))
    ensures Inv(s.(deliveries := s.deliveries[d := v]))
  {
    var t := s.(deliveries := s.deliveries[d := v]);
    forall p | p in t.slots
      ensures SlotOk(t, p)
    {
      assert SlotOk(s, p);
    }
    forall e | 0 <= e < |t.deliveries|
      ensures DeliveryOk(t, e)
    {
      assert DeliveryOk(s, e);
    }
  }

  lemma DeliverKeeps(s: State, permission: string, subscribed: bool)
    requires Inv(s)
    ensures Inv(DeliverRequest(s, permission, subscribed))
  {
    var t := DeliverRequest(s, permission, subscribed);
    forall p | p in t.slots
      ensures SlotOk(t, p)
    {
      if p in s.slots {
        assert SlotOk(s, p);
      }
    }
    forall d | 0 <= d < |t.deliveries|
      ensures DeliveryOk(t, d)
    {
      if d < |s.deliveries| {
        assert DeliveryOk(s, d);
      }
    }
  }

  lemma PollKeeps(s: State, d: int, timerFirst: bool)
    requires Inv(s)
    ensures Inv(PollDelivery(s, d, timerFirst))
  {
    if 0 <= d < |s.deliveries| && s.deliveries[d].settled.None? {
      var v := s.deliveries[d];
      assert DeliveryOk(s, d);
      if !v.slot.Open? && !(v.timedOut && timerFirst) {
        UpdateKeeps(s, d, v.(settled := Some(if v.slot.Sent? then v.slot.reply else Reject)));
      } else if v.timedOut {
        TakeSlotKeeps(s, v.permission, Dropped);
        var mid := TakeSlot(s, v.permission, Dropped);
        UpdateKeeps(mid, d, mid.deliveries[d].(settled := Some(Reject)));
      }
    }
  }

  lemma StepKeeps(s: State, step: Step)
    requires Inv(s)
    ensures Inv(Apply(s, step))
  {
    match step
    case Register =>
      forall d | 0 <= d < |s.deliveries|
        ensures DeliveryOk(Apply(s, step), d)
      {
        assert DeliveryOk(s, d);
      }
    case Deliver(permission, subscribed) => DeliverKeeps(s, permission, subscribed);
    case HostReply(permission, reply) => TakeSlotKeeps(s, permission, Sent(reply));
    case Respond(d, reply) =>
      if 0 <= d < |s.deliveries| { UpdateKeeps(s, d, s.deliveries[d].(responder := Said(reply))); }
    case BridgeTurn(d) =>
      if 0 <= d < |s.deliveries| && s.deliveries[d].responder.Said? {
        var v := s.deliveries[d];
        UpdateKeeps(s, d, v.(responder := Bridged));
        TakeSlotKeeps(s.(deliveries := s.deliveries[d := v.(responder := Bridged)]), v.permission,
            Sent(v.responder.reply));
      }
    case TimerElapses(d) =>
      if 0 <= d < |s.deliveries| { UpdateKeeps(s, d, s.deliveries[d].(timedOut := true)); }
    case Poll(d, timerFirst) => PollKeeps(s, d, timerFirst);
    case Close =>
      forall d | 0 <= d < |s.deliveries|
        ensures s.live ==> DeliveryOk(Apply(s, step), d)
      {
        assert DeliveryOk(s, d);
      }
  }

  lemma {:induction false} RunKeeps(steps: seq<Step>)
    ensures Inv(Run(INITIAL, steps))
  {
    if steps != [] {
      RunKeeps(steps[..|steps| - 1]);
      StepKeeps(Run(INITIAL, steps[..|steps| - 1]), steps[|steps| - 1]);
    }
  }

  // ---------------------------------------------------------------------------
  // Settling
  // ---------------------------------------------------------------------------

  /** The reply a step sends through delivery `d`'s slot while it is pending, if it does. */
  function ReplySent(s: State, step: Step, d: int): Option<Reply> {
    if step.HostReply? && s.live && step.permission in s.slots && s.slots[step.permission] == d then Some(step.reply)
    else if step.BridgeTurn? && 0 <= step.delivery < |s.deliveries| && s.deliveries[step.delivery].responder.Said? then
      var v := s.deliveries[step.delivery];
      if s.live && v.permission in s.slots && s.slots[v.permission] == d then Some(v.responder.reply) else None
    else None
  }

  /** A delivery keeps its permission id, a slot that is no longer open and the value it settled to;
      its slot gets a reply exactly when one is sent to it while pending. */
  lemma StepFinal(s: State, step: Step, d: int)
    requires Inv(s) && 0 <= d < |s.deliveries|
    ensures var t := Apply(s, step);
            && d < |t.deliveries|
            && t.deliveries[d].permission == s.deliveries[d].permission
            && (s.deliveries[d].settled.Some? ==> t.deliveries[d].settled == s.deliveries[d].settled)
            && (!s.deliveries[d].slot.Open? ==> t.deliveries[d].slot == s.deliveries[d].slot)
            && (s.deliveries[d].slot.Open? ==>
                  (t.deliveries[d].slot.Sent? <==> ReplySent(s, step, d).Some?)
                  && (t.deliveries[d].slot.Sent? ==> t.deliveries[d].slot == Sent(ReplySent(s, step, d).value)))
            && (t.deliveries[d].settled.Some? && s.deliveries[d].settled.None? ==> step.Poll? && step.delivery == d)
            && (s.deliveries[d].timedOut ==> t.deliveries[d].timedOut)
  {
    assert DeliveryOk(s, d);
    forall p | p in s.slots
      ensures SlotOk(s, p)
    {
    }
    if step.Poll? {
      PollFinal(s, step.delivery, step.timerFirst, d);
    }
  }

  lemma PollFinal(s: State, e: int, timerFirst: bool, d: int)
    requires Inv(s) && 0 <= d < |s.deliveries|
    ensures var before, after := s.deliveries[d], PollDelivery(s, e, timerFirst).deliveries;
            && |after| == |s.deliveries|
            && (before.settled.Some? || e != d ==> after[d].settled == before.settled)
            && after[d].slot == (if before.slot.Open? && after[d].slot != before.slot then Dropped else before.slot)
            && after[d].permission == before.permission && after[d].timedOut == before.timedOut
  {
    assert DeliveryOk(s, d);
  }

  lemma {:induction false} SettledForGood(s: State, steps: seq<Step>, d: int)
    requires Inv(s) && 0 <= d < |s.deliveries|
    ensures var t := Run(s, steps);
            && Inv(t) && d < |t.deliveries|
            && (s.deliveries[d].settled.Some? ==> t.deliveries[d].settled == s.deliveries[d].settled)
            && (!s.deliveries[d].slot.Open? ==> t.deliveries[d].slot == s.deliveries[d].slot)
            && (s.deliveries[d].timedOut ==> t.deliveries[d].timedOut)
  {
    if steps != [] {
      SettledForGood(s, steps[..|steps| - 1], d);
      StepKeeps(Run(s, steps[..|steps| - 1]), steps[|steps| - 1]);
      StepFinal(Run(s, steps[..|steps| - 1]), steps[|steps| - 1], d);
    }
  }

  ghost predicate WasSent(steps: seq<Step>, d: int, reply: Reply) {
    exists k :: 0 <= k < |steps| && ReplySent(Run(INITIAL, steps[..k]), steps[k], d) == Some(reply)
  }

  /** A slot holds a reply only if that reply was sent to it while it was pending. */
  lemma {:induction false} SlotWasFilled(steps: seq<Step>, d: int)
    requires 0 <= d < |Run(INITIAL, steps).deliveries| && Run(INITIAL, steps).deliveries[d].slot.Sent?
    ensures WasSent(steps, d, Run(INITIAL, steps).deliveries[d].slot.reply)
  {
    var before, step := steps[..|steps| - 1], steps[|steps| - 1];
    var s := Run(INITIAL, before);
    RunKeeps(before);
    if d < |s.deliveries| {
      StepFinal(s, step, d);
      if s.deliveries[d].slot.Open? {
        assert ReplySent(Run(INITIAL, steps[..|steps| - 1]), step, d) ==
               Some(Run(INITIAL, steps).deliveries[d].slot.reply);
      } else {
        SlotWasFilled(before, d);
        var k :| 0 <= k < |before|
            && ReplySent(Run(INITIAL, before[..k]), before[k], d) == Some(s.deliveries[d].slot.reply);
        assert before[..k] == steps[..k] && before[k] == steps[k];
      }
    } else {
      OnlyDeliverAdds(s, step);
    }
  }

  /** A fresh delivery starts without a reply in its slot. */
  lemma OnlyDeliverAdds(s: State, step: Step)
    ensures |s.deliveries| <= |Apply(s, step).deliveries|
    ensures forall d :: |s.deliveries| <= d < |Apply(s, step).deliveries| ==> !Apply(s, step).deliveries[d].slot.Sent?
  {
  }

  /** What a delivery settles to is a rejection or a reply sent while its slot was pending, and by
      then no slot of it is left. */
  lemma SettledValue(steps: seq<Step>, d: int)
    requires 0 <= d < |Run(INITIAL, steps).deliveries|
    ensures var s := Run(INITIAL, steps);
            s.deliveries[d].settled.Some? ==>
              && (s.deliveries[d].settled.value == Reject || WasSent(steps, d, s.deliveries[d].settled.value))
              && forall p :: p in s.slots ==> s.slots[p] != d
  {
    RunKeeps(steps);
    var s := Run(INITIAL, steps);
    assert DeliveryOk(s, d);
    if s.deliveries[d].slot.Sent? {
      SlotWasFilled(steps, d);
    }
    forall p | p in s.slots
      ensures SlotOk(s, p)
    {
    }
  }

  /** A woken delivery settles exactly when its slot has spoken or its timer has run out. */
  lemma SettlesWhenReady(s: State, d: int, timerFirst: bool)
    requires Inv(s) && 0 <= d < |s.deliveries| && s.deliveries[d].settled.None?
    ensures PollDelivery(s, d, timerFirst).deliveries[d].settled.Some? <==>
            !s.deliveries[d].slot.Open? || s.deliveries[d].timedOut
  {
  }

  /** Whatever was pending when the session closed settles to a rejection and to nothing else. */
  lemma ClosedRejects(before: seq<Step>, d: int, after: seq<Step>, timerFirst: bool)
    requires var s := Run(INITIAL, before);
             s.live && 0 <= d < |s.deliveries| && s.deliveries[d].slot.Open?
    ensures var t := Run(Apply(Run(INITIAL, before), Close), after);
            && d < |t.deliveries|
            && t.deliveries[d].settled in {None, Some(Reject)}
            && PollDelivery(t, d, timerFirst).deliveries[d].settled == Some(Reject)
  {
    RunKeeps(before);
    var s := Run(INITIAL, before);
    assert DeliveryOk(s, d);
    StepKeeps(s, Close);
    var closed := Apply(s, Close);
    SettledForGood(closed, after, d);
    var t := Run(closed, after);
    assert DeliveryOk(t, d);
    StepFinal(t, Poll(d, timerFirst), d);
  }

  lemma {:induction false} RunConcat(s: State, a: seq<Step>, b: seq<Step>)
    ensures Run(s, a + b) == Run(Run(s, a), b)
    decreases |b|
  {
    if b == [] {
      assert a + b == a;
    } else {
      assert (a + b)[..|a + b| - 1] == a + b[..|b| - 1];
      RunConcat(s, a, b[..|b| - 1]);
    }
  }

  /** A step sends `reply` to delivery `d`: the host replies to its id, or a bridge passes on to its id
      what its responder was told. */
  predicate Sends(s: State, step: Step, d: int, reply: Reply)
    requires 0 <= d < |s.deliveries|
  {
    || step == HostReply(s.deliveries[d].permission, reply)
    || (step.BridgeTurn? && 0 <= step.delivery < |s.deliveries|
        && s.deliveries[step.delivery].responder == Said(reply)
        && s.deliveries[step.delivery].permission == s.deliveries[d].permission)
  }

  lemma SendingFills(s: State, step: Step, d: int, reply: Reply)
    requires Inv(s) && 0 <= d < |s.deliveries| && s.deliveries[d].slot.Open? && Sends(s, step, d, reply)
    ensures Inv(Apply(s, step)) && d < |Apply(s, step).deliveries|
    ensures Apply(s, step).deliveries[d].slot == Sent(reply) && Apply(s, step).deliveries[d].settled.None?
  {
    assert DeliveryOk(s, d);
    StepKeeps(s, step);
    StepFinal(s, step, d);
  }

  /** A reply sent while a delivery is pending is what it settles to, in every continuation, unless its
      timer has elapsed and is looked at first. */
  lemma SentIsSettled(before: seq<Step>, step: Step, after: seq<Step>, d: int, reply: Reply, timerFirst: bool)
    requires var s := Run(INITIAL, before);
             0 <= d < |s.deliveries| && s.deliveries[d].slot.Open? && Sends(s, step, d, reply)
    ensures var t := Run(Apply(Run(INITIAL, before), step), after);
            && d < |t.deliveries|
            && var v, woken := t.deliveries[d], PollDelivery(t, d, timerFirst).deliveries[d].settled;
               && v.settled in {None, Some(reply), Some(Reject)}
               && (!v.timedOut ==> v.settled in {None, Some(reply)} && woken == Some(reply))
               && (v.settled.None? ==> woken == Some(if v.timedOut && timerFirst then Reject else reply))
  {
    RunKeeps(before);
    var s := Run(INITIAL, before);
    SendingFills(s, step, d, reply);
    SettledForGood(Apply(s, step), after, d);
    WokenBySlot(Run(Apply(s, step), after), d, reply, timerFirst);
  }

  lemma WokenBySlot(t: State, d: int, reply: Reply, timerFirst: bool)
    requires Inv(t) && 0 <= d < |t.deliveries| && t.deliveries[d].slot == Sent(reply)
    ensures var v, woken := t.deliveries[d], PollDelivery(t, d, timerFirst).deliveries[d].settled;
            && v.settled in {None, Some(reply), Some(Reject)}
            && (!v.timedOut ==> v.settled in {None, Some(reply)} && woken == Some(reply))
            && (v.settled.None? ==> woken == Some(if v.timedOut && timerFirst then Reject else reply))
  {
    assert DeliveryOk(t, d);
  }

  /** A reply was sent to the delivery while it was pending. */
  ghost predicate SentTo(steps: seq<Step>, d: int, reply: Reply) {
    exists k :: 0 <= k < |steps| && SentAt(steps, k, d, reply)
  }

  ghost predicate SentAt(steps: seq<Step>, k: nat, d: int, reply: Reply)
    requires k < |steps|
  {
    var s := Run(INITIAL, steps[..k]);
    0 <= d < |s.deliveries| && s.deliveries[d].slot.Open? && Sends(s, steps[k], d, reply)
  }

  lemma SentToSettles(steps: seq<Step>, d: int, reply: Reply, timerFirst: bool)
    requires SentTo(steps, d, reply)
    ensures var t := Run(INITIAL, steps);
            && 0 <= d < |t.deliveries|
            && var v, woken := t.deliveries[d], PollDelivery(t, d, timerFirst).deliveries[d].settled;
               && (!v.timedOut ==> woken == Some(reply))
               && (v.settled.None? ==> woken == Some(if v.timedOut && timerFirst then Reject else reply))
  {
    var k :| 0 <= k < |steps| && SentAt(steps, k, d, reply);
    RunSplit(steps, k);
    SentIsSettled(steps[..k], steps[k], steps[k + 1..], d, reply, timerFirst);
  }

  lemma RunSplit(steps: seq<Step>, k: nat)
    requires k < |steps|
    ensures Run(INITIAL, steps) == Run(Apply(Run(INITIAL, steps[..k]), steps[k]), steps[k + 1..])
  {
    assert steps == steps[..k] + [steps[k]] + steps[k + 1..];
    RunConcat(INITIAL, steps[..k] + [steps[k]], steps[k + 1..]);
    OneMore(INITIAL, steps[..k], steps[k]);
  }

  /** What waking a delivery returns, if a reply was sent to it while it was pending: that reply, unless
      its timer has elapsed and is looked at first or was before. */
  ghost predicate AnswersWhatWasSent(steps: seq<Step>, d: int, timerFirst: bool, answer: Option<Reply>) {
    forall r :: SentTo(steps, d, r) ==>
      && 0 <= d < |Run(INITIAL, steps).deliveries|
      && var v := Run(INITIAL, steps).deliveries[d];
         && (!v.timedOut ==> answer == Some(r))
         && (v.settled.None? ==> answer == Some(if v.timedOut && timerFirst then Reject else r))
  }

  lemma WokenRightly(steps: seq<Step>, d: int, timerFirst: bool)
    ensures var t := Run(INITIAL, steps);
            AnswersWhatWasSent(
              steps, d, timerFirst,
              if 0 <= d < |t.deliveries| then PollDelivery(t, d, timerFirst).deliveries[d].settled else None)
  {
    forall r | SentTo(steps, d, r)
      ensures 0 <= d < |Run(INITIAL, steps).deliveries|
      ensures var t := Run(INITIAL, steps);
              var v, woken := t.deliveries[d], PollDelivery(t, d, timerFirst).deliveries[d].settled;
              && (!v.timedOut ==> woken == Some(r))
              && (v.settled.None? ==> woken == Some(if v.timedOut && timerFirst then Reject else r))
    {
      SentToSettles(steps, d, r, timerFirst);
    }
  }

  /** What a responder is first told stays with it until its bridge has its turn. */
  lemma {:induction false} SaidUntilBridged(s: State, d: int, reply: Reply, steps: seq<Step>)
    requires 0 <= d < |s.deliveries| && s.deliveries[d].responder.Unused?
    ensures var t := Run(Apply(s, Respond(d, reply)), steps);
            d < |t.deliveries| && t.deliveries[d].responder in {Said(reply), Bridged}
  {
    if steps != [] {
      SaidUntilBridged(s, d, reply, steps[..|steps| - 1]);
      ResponderStep(Run(Apply(s, Respond(d, reply)), steps[..|steps| - 1]), steps[|steps| - 1], d);
    }
  }

  lemma ResponderStep(s: State, step: Step, d: int)
    requires 0 <= d < |s.deliveries| && !s.deliveries[d].responder.Unused?
    ensures d < |Apply(s, step).deliveries|
    ensures Apply(s, step).deliveries[d].responder in {s.deliveries[d].responder, Bridged}
  {
  }

  // ---------------------------------------------------------------------------
  // Deliveries that share a permission id
  // ---------------------------------------------------------------------------

  /** A fresh delivery is rejected at once if and only if nobody can answer it, and waits for a reply
      if and only if somebody can and no other delivery is waiting under its id. */
  lemma DeliveredExactly(steps: seq<Step>, permission: string, subscribed: bool)
    ensures var s, t := Run(INITIAL, steps), Run(INITIAL, steps + [Deliver(permission, subscribed)]);
            && |t.deliveries| == |s.deliveries| + 1
            && var v := t.deliveries[|s.deliveries|];
               && v.permission == permission && !v.timedOut
               && v.settled == (if s.live && subscribed then None else Some(Reject))
               && (v.slot.Open? <==>
                     && s.live && subscribed
                     && forall e :: 0 <= e < |s.deliveries| && s.deliveries[e].permission == permission ==>
                                      !s.deliveries[e].slot.Open?)
  {
    RunKeeps(steps);
    OneMore(INITIAL, steps, Deliver(permission, subscribed));
    var s := Run(INITIAL, steps);
    if permission in s.slots {
      assert SlotOk(s, permission);
    } else {
      forall e | 0 <= e < |s.deliveries| && s.deliveries[e].permission == permission
        ensures !s.deliveries[e].slot.Open?
      {
        assert DeliveryOk(s, e);
      }
    }
  }

  predicate OfDelivery(step: Step) {
    step.Respond? || step.BridgeTurn? || step.TimerElapses? || step.Poll?
  }

  /** A step of one delivery reaches another's slot: the slot under its id is not its own, and it is
      its bridge that speaks, or its timer that is taken although its own slot has spoken. */
  predicate Interferes(s: State, step: Step)
    requires OfDelivery(step) && 0 <= step.delivery < |s.deliveries|
  {
    var v := s.deliveries[step.delivery];
    && s.live && v.permission in s.slots && s.slots[v.permission] != step.delivery
    && ((step.BridgeTurn? && v.responder.Said?) || (step.Poll? && v.settled.None? && v.timedOut && step.timerFirst))
  }

  /** A step of one delivery changes another one exactly then. */
  lemma InterferenceExactly(s: State, step: Step)
    requires Inv(s) && OfDelivery(step) && 0 <= step.delivery < |s.deliveries|
    ensures Interferes(s, step) <==>
            (exists e :: 0 <= e < |s.deliveries| && e != step.delivery
                         && Apply(s, step).deliveries[e] != s.deliveries[e])
  {
    var d := step.delivery;
    var v := s.deliveries[d];
    assert DeliveryOk(s, d);
    if v.permission in s.slots {
      assert SlotOk(s, v.permission);
      var e := s.slots[v.permission];
      if Interferes(s, step) {
        assert Apply(s, step).deliveries[e] != s.deliveries[e];
      }
    }
  }

  ghost predicate DistinctOutstanding(s: State) {
    forall d, e :: 0 <= d < e < |s.deliveries| && s.deliveries[d].settled.None? && s.deliveries[e].settled.None? ==>
      s.deliveries[d].permission != s.deliveries[e].permission
  }

  /** With distinct outstanding ids, waking a delivery disturbs no other. */
  lemma WakingDoesNotInterfere(s: State, d: int, timerFirst: bool, e: int)
    requires Inv(s) && DistinctOutstanding(s)
    requires 0 <= d < |s.deliveries| && 0 <= e < |s.deliveries| && e != d
    ensures PollDelivery(s, d, timerFirst).deliveries[e] == s.deliveries[e]
  {
    assert DeliveryOk(s, d);
    if s.deliveries[d].permission in s.slots {
      assert SlotOk(s, s.deliveries[d].permission);
      assert DeliveryOk(s, s.slots[s.deliveries[d].permission]);
    }
  }

  /** But the bridge of a delivery that timed out can still answer a newer one under the same id. */
  lemma LateBridgeAnswersAnother(p: string)
    ensures var s := Run(INITIAL, [Register, Deliver(p, true), TimerElapses(0), Poll(0, true), Deliver(p, true),
                                   Respond(0, Always)]);
            && Inv(s) && DistinctOutstanding(s) && |s.deliveries| == 2 && s.deliveries[0].settled == Some(Reject)
            && s.deliveries[1].slot.Open? && Apply(s, BridgeTurn(0)).deliveries[1].slot == Sent(Always)
  {
    var steps := [Register, Deliver(p, true), TimerElapses(0), Poll(0, true), Deliver(p, true), Respond(0, Always)];
    RunKeeps(steps);
    FourSteps(INITIAL, steps[0], steps[1], steps[2], steps[3]);
    assert steps[..4] == [steps[0], steps[1], steps[2], steps[3]];
    TimedOut(p);
    OneMore(INITIAL, steps[..4], steps[4]);
    OneMore(INITIAL, steps[..5], steps[5]);
    assert steps[..4] + [steps[4]] == steps[..5] && steps[..5] + [steps[5]] == steps;
  }

  lemma TimedOut(p: string)
    ensures Apply(Apply(Apply(Apply(INITIAL, Register), Deliver(p, true)), TimerElapses(0)), Poll(0, true)) ==
            State(true, map[], [Delivery(p, Dropped, Unused, true, Some(Reject))])
  {
    var s := Apply(Apply(Apply(INITIAL, Register), Deliver(p, true)), TimerElapses(0));
    assert s == State(true, map[p := 0], [Delivery(p, Open, Unused, true, None)]);
    assert s.slots - {p} == map[];
  }

  lemma FourSteps(s: State, a: Step, b: Step, c: Step, d: Step)
    ensures Run(s, [a, b, c, d]) == Apply(Apply(Apply(Apply(s, a), b), c), d)
  {
    OneMore(s, [], a);
    OneMore(s, [a], b);
    OneMore(s, [a, b], c);
    OneMore(s, [a, b, c], d);
    assert [] + [a] == [a] && [a] + [b] == [a, b] && [a, b] + [c] == [a, b, c] && [a, b, c] + [d] == [a, b, c, d];
  }

  lemma OneMore(s: State, steps: seq<Step>, step: Step)
    ensures Run(s, steps + [step]) == Apply(Run(s, steps), step)
  {
    assert (steps + [step])[..|steps|] == steps;
  }

  /** No permission id was ever used twice. */
  ghost predicate NoReuse(s: State) {
    forall d, e :: 0 <= d < e < |s.deliveries| ==> s.deliveries[d].permission != s.deliveries[e].permission
  }

  /** Without reuse no step of one delivery ever disturbs another. */
  lemma NoReuseNoInterference(s: State, step: Step)
    requires Inv(s) && NoReuse(s) && OfDelivery(step) && 0 <= step.delivery < |s.deliveries|
    ensures forall e :: 0 <= e < |s.deliveries| && e != step.delivery ==>
              Apply(s, step).deliveries[e] == s.deliveries[e]
  {
    var v := s.deliveries[step.delivery];
    if v.permission in s.slots {
      assert SlotOk(s, v.permission);
    }
    InterferenceExactly(s, step);
  }

  /** The only replies that reach a pending slot: the host's for its id, or what a responder handed
      out for that id said. */
  lemma FilledExactly(s: State, step: Step, e: int)
    requires Inv(s) && 0 <= e < |s.deliveries| && s.deliveries[e].slot.Open?
    ensures ReplySent(s, step, e).Some? <==>
            || (step.HostReply? && step.permission == s.deliveries[e].permission)
            || (step.BridgeTurn? && 0 <= step.delivery < |s.deliveries| && s.deliveries[step.delivery].responder.Said?
                && s.deliveries[step.delivery].permission == s.deliveries[e].permission)
  {
    assert DeliveryOk(s, e);
    if step.HostReply? && step.permission in s.slots {
      assert SlotOk(s, step.permission);
    }
    if step.BridgeTurn? && 0 <= step.delivery < |s.deliveries| && s.deliveries[step.delivery].permission in s.slots {
      assert SlotOk(s, s.deliveries[step.delivery].permission);
    }
  }

  /** What a responder said was said to it. */
  lemma {:induction false} SaidWasSaid(steps: seq<Step>, d: int)
    requires 0 <= d < |Run(INITIAL, steps).deliveries| && Run(INITIAL, steps).deliveries[d].responder.Said?
    ensures Respond(d, Run(INITIAL, steps).deliveries[d].responder.reply) in steps
  {
    var before, step := steps[..|steps| - 1], steps[|steps| - 1];
    assert steps == before + [step];
    var s := Run(INITIAL, before);
    SaidNow(s, step, d);
    if d < |s.deliveries| && s.deliveries[d].responder == Run(INITIAL, steps).deliveries[d].responder {
      SaidWasSaid(before, d);
    }
  }

  lemma SaidNow(s: State, step: Step, d: int)
    requires 0 <= d < |Apply(s, step).deliveries| && Apply(s, step).deliveries[d].responder.Said?
    ensures step == Respond(d, Apply(s, step).deliveries[d].responder.reply)
            || (d < |s.deliveries| && s.deliveries[d].responder == Apply(s, step).deliveries[d].responder)
  {
  }

  lemma {:induction false} NoReuseBefore(steps: seq<Step>, k: nat)
    requires k <= |steps| && NoReuse(Run(INITIAL, steps))
    ensures NoReuse(Run(INITIAL, steps[..k]))
    ensures |Run(INITIAL, steps[..k]).deliveries| <= |Run(INITIAL, steps).deliveries|
    ensures forall d :: 0 <= d < |Run(INITIAL, steps[..k]).deliveries| ==>
              Run(INITIAL, steps[..k]).deliveries[d].permission == Run(INITIAL, steps).deliveries[d].permission
  {
    if k == |steps| {
      assert steps[..k] == steps;
    } else {
      var before := steps[..|steps| - 1];
      PermissionsStay(Run(INITIAL, before), steps[|steps| - 1]);
      NoReuseBefore(before, k);
      assert before[..k] == steps[..k];
    }
  }

  lemma PermissionsStay(s: State, step: Step)
    ensures |s.deliveries| <= |Apply(s, step).deliveries|
    ensures forall d :: 0 <= d < |s.deliveries| ==>
              Apply(s, step).deliveries[d].permission == s.deliveries[d].permission
  {
  }

  /** Without reuse a delivery settles to a rejection, to a reply of the host under its id, or to what
      its own responder was told. */
  lemma OwnReplyOnly(steps: seq<Step>, d: int)
    requires 0 <= d < |Run(INITIAL, steps).deliveries| && NoReuse(Run(INITIAL, steps))
    ensures var v := Run(INITIAL, steps).deliveries[d];
            v.settled.Some? ==>
              v.settled.value == Reject || HostReply(v.permission, v.settled.value) in steps
                  || Respond(d, v.settled.value) in steps
  {
    SettledValue(steps, d);
    var v := Run(INITIAL, steps).deliveries[d];
    if v.settled.Some? && v.settled.value != Reject {
      var k :| 0 <= k < |steps| && ReplySent(Run(INITIAL, steps[..k]), steps[k], d) == Some(v.settled.value);
      NoReuseBefore(steps, k);
      SentByOwn(steps, k, d);
    }
  }

  lemma SentByOwn(steps: seq<Step>, k: nat, d: int)
    requires k < |steps| && NoReuse(Run(INITIAL, steps[..k])) && ReplySent(Run(INITIAL, steps[..k]), steps[k], d).Some?
    ensures var s, reply := Run(INITIAL, steps[..k]), ReplySent(Run(INITIAL, steps[..k]), steps[k], d).value;
            && 0 <= d < |s.deliveries|
            && (HostReply(s.deliveries[d].permission, reply) in steps || Respond(d, reply) in steps)
  {
    var s, step := Run(INITIAL, steps[..k]), steps[k];
    RunKeeps(steps[..k]);
    assert step in steps;
    if step.HostReply? {
      assert SlotOk(s, step.permission);
    } else {
      var b := step.delivery;
      assert SlotOk(s, s.deliveries[b].permission);
      assert b == d;
      SaidWasSaid(steps[..k], d);
    }
  }

  // ---------------------------------------------------------------------------
  // The session's permission table
  // ---------------------------------------------------------------------------

  /** Delivery `d` once the senders of all but the `remaining` slots are gone. */
  function AfterDropping(v: Delivery, remaining: map<string, int>): Delivery {
    if v.slot.Open? && v.permission !in remaining then v.(slot := Dropped) else v
  }

  lemma DropOne(s: State, result: seq<Delivery>, remaining: map<string, int>, p: string)
    requires Inv(s) && p in remaining && p in s.slots && |result| == |s.deliveries|
    requires forall d :: 0 <= d < |result| ==> result[d] == AfterDropping(s.deliveries[d], remaining)
    ensures var after := SetSlot(result, s.slots[p], Dropped);
            forall d :: 0 <= d < |after| ==> after[d] == AfterDropping(s.deliveries[d], remaining - {p})
  {
    assert SlotOk(s, p);
    var after := SetSlot(result, s.slots[p], Dropped);
    forall d | 0 <= d < |after|
      ensures after[d] == AfterDropping(s.deliveries[d], remaining - {p})
    {
      assert DeliveryOk(s, d);
    }
  }

  /** Remove the stored senders one by one, in whatever order the table yields them. */
  method RejectPendingReplies(live: bool, slots: map<string, int>, deliveries: seq<Delivery>)
    returns (result: seq<Delivery>)
    requires live && Inv(State(live, slots, deliveries))
    ensures result == CloseAll(State(live, slots, deliveries)).deliveries
  {
    ghost var s := State(live, slots, deliveries);
    forall d | 0 <= d < |deliveries|
      ensures deliveries[d] == AfterDropping(deliveries[d], slots)
    {
      assert DeliveryOk(s, d);
    }
    var remaining := slots;
    result := deliveries;
    while remaining.Keys != {}
      invariant remaining.Keys <= slots.Keys && |result| == |deliveries|
      invariant forall d :: 0 <= d < |deliveries| ==> result[d] == AfterDropping(deliveries[d], remaining)
      decreases |remaining.Keys|
    {
      var p :| p in remaining.Keys;
      DropOne(s, result, remaining, p);
      result := SetSlot(result, slots[p], Dropped);
      assert (remaining - {p}).Keys == remaining.Keys - {p};
      remaining := remaining - {p};
    }
  }

  /** `trace` are the steps so far, so everything proved of runs holds of the object. */
  class PermissionTable {
    var live: bool
    var slots: map<string, int>
    var deliveries: seq<Delivery>
    ghost var trace: seq<Step>

    ghost function View(): State
      reads this
    {
      State(live, slots, deliveries)
    }

    ghost predicate Valid()
      reads this
    {
      View() == Run(INITIAL, trace)
    }

    constructor ()
      ensures Valid() && trace == []
    {
      live, slots, deliveries, trace := false, map[], [], [];
    }

    ghost method Took(step: Step)
      requires View() == Apply(Run(INITIAL, trace), step)
      modifies `trace
      ensures Valid() && trace == old(trace) + [step]
    {
      OneMore(INITIAL, trace, step);
      trace := trace + [step];
    }

    method RegisterSession()
      requires Valid()
      modifies this
      ensures View() == Apply(old(View()), Register)
      ensures Valid() && trace == old(trace) + [Register]
    {
      if !live {
        live, slots := true, map[];
      }
      Took(Register);
    }

    method DeliverPermissionRequest(permission: string, subscribed: bool) returns (d: int)
      requires Valid()
      modifies this
      ensures View() == Apply(old(View()), Deliver(permission, subscribed))
      ensures Valid() && trace == old(trace) + [Deliver(permission, subscribed)]
      ensures d == |old(deliveries)| < |deliveries|
      ensures !old(live) || !subscribed ==> deliveries[d].settled == Some(Reject)
    {
      d := |deliveries|;
      if !live || !subscribed {
        deliveries := deliveries + [Delivery(permission, Dropped, Bridged, false, Some(Reject))];
        Took(Deliver(permission, subscribed));
        return;
      }
      var slot := Dropped;
      if permission !in slots {
        slots := slots[permission := d];
        slot := Open;
      }
      deliveries := deliveries + [Delivery(permission, slot, Unused, false, None)];
      Took(Deliver(permission, subscribed));
    }

    method RespondPermission(permission: string, reply: Reply) returns (resolved: bool)
      requires Valid()
      modifies this
      ensures View() == Apply(old(View()), HostReply(permission, reply))
      ensures Valid() && trace == old(trace) + [HostReply(permission, reply)]
      ensures resolved <==> old(live) && permission in old(slots)
    {
      resolved := live && permission in slots;
      if resolved {
        deliveries := SetSlot(deliveries, slots[permission], Sent(reply));
        slots := slots - {permission};
      }
      Took(HostReply(permission, reply));
    }

    /** Drop every stored sender, then the session goes. */
    method CloseSession()
      requires Valid()
      modifies this
      ensures View() == Apply(old(View()), Close)
      ensures Valid() && trace == old(trace) + [Close]
    {
      RunKeeps(trace);
      if live {
        deliveries := RejectPendingReplies(live, slots, deliveries);
        slots := map[];
        live := false;
      }
      Took(Close);
    }

    /** A subscriber speaks through the responder it was handed; the first word counts. */
    method RespondThrough(d: int, reply: Reply)
      requires Valid()
      modifies this
      ensures View() == Apply(old(View()), Respond(d, reply))
      ensures Valid() && trace == old(trace) + [Respond(d, reply)]
    {
      if 0 <= d < |deliveries| && deliveries[d].responder.Unused? {
        deliveries := deliveries[d := deliveries[d].(responder := Said(reply))];
      }
      Took(Respond(d, reply));
    }

    /** The bridge passes on what the responder said, by permission id. */
    method RunBridge(d: int)
      requires Valid()
      modifies this
      ensures View() == Apply(old(View()), BridgeTurn(d))
      ensures Valid() && trace == old(trace) + [BridgeTurn(d)]
    {
      if 0 <= d < |deliveries| && deliveries[d].responder.Said? {
        var v := deliveries[d];
        deliveries := deliveries[d := v.(responder := Bridged)];
        if live && v.permission in slots {
          deliveries := SetSlot(deliveries, slots[v.permission], Sent(v.responder.reply));
          slots := slots - {v.permission};
        }
      }
      Took(BridgeTurn(d));
    }

    method ElapseTimer(d: int)
      requires Valid()
      modifies this
      ensures View() == Apply(old(View()), TimerElapses(d))
      ensures Valid() && trace == old(trace) + [TimerElapses(d)]
    {
      if 0 <= d < |deliveries| {
        deliveries := deliveries[d := deliveries[d].(timedOut := true)];
      }
      Took(TimerElapses(d));
    }

    /** The waiting delivery is woken. Unless ids were reused, what it returns is a rejection, the
        host's reply under its id, or its own responder's. */
    method WakeDelivery(d: int, timerFirst: bool) returns (reply: Option<Reply>)
      requires Valid()
      modifies this
      ensures View() == Apply(old(View()), Poll(d, timerFirst))
      ensures Valid() && trace == old(trace) + [Poll(d, timerFirst)]
      ensures reply.Some? ==> 0 <= d < |deliveries| && deliveries[d].settled == reply
      ensures AnswersWhatWasSent(old(trace), d, timerFirst, reply)
      ensures reply.Some? && NoReuse(View()) ==>
                reply.value == Reject || HostReply(deliveries[d].permission, reply.value) in trace
                    || Respond(d, reply.value) in trace
    {
      WokenRightly(trace, d, timerFirst);
      reply := None;
      if 0 <= d < |deliveries| {
        var v := deliveries[d];
        if v.settled.None? {
          if !v.slot.Open? && !(v.timedOut && timerFirst) {
            deliveries := deliveries[d := v.(settled := Some(if v.slot.Sent? then v.slot.reply else Reject))];
          } else if v.timedOut {
            DropSlot(v.permission);
            deliveries := deliveries[d := deliveries[d].(settled := Some(Reject))];
          }
        }
        reply := deliveries[d].settled;
      }
      Took(Poll(d, timerFirst));
      if reply.Some? && NoReuse(View()) {
        OwnReplyOnly(trace, d);
      }
    }

    method DropSlot(permission: string)
      modifies `slots, `deliveries
      ensures View() == TakeSlot(old(View()), permission, Dropped)
    {
      if live && permission in slots {
        deliveries := SetSlot(deliveries, slots[permission], Dropped);
        slots := slots - {permission};
      }
    }
  }
}
