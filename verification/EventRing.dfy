/**
A session's event ring: the events last merged, kept ascending by sequence number and bounded, and
the highest sequence number acknowledged to the sidecar. The reference is the unbounded log of
everything ever merged, read as a last-writer-wins map.
 */
module EventRing {
  import opened Core
  import opened Ordered

  datatype Notification = Notification(method_: string, params: string)

  datatype Event = Event(number: int, notification: Notification)

  /** `ACP_SESSION_EVENT_RETENTION_LIMIT` */
  const LIMIT := 1024

  // ---------------------------------------------------------------------------
  // The reference
  // ---------------------------------------------------------------------------

  /** Insert events one by one; a later event replaces an earlier one with its number. */
  function Inserted(m: map<int, Event>, events: seq<Event>): map<int, Event> {
    if events == [] then m
    else
      var last := events[|events| - 1];
      Inserted(m, events[..|events| - 1])[last.number := last]
  }

  /** The highest `LIMIT` keys, ascending. */
  function NewestKeys(keys: set<int>): (r: seq<int>)
    ensures StrictlyAscending(r) && forall i :: 0 <= i < |r| ==> r[i] in keys
  {
    var all := Sorted(keys);
    if |all| > LIMIT then all[|all| - LIMIT..] else all
  }

  /** The entries with the highest `LIMIT` numbers, ascending. */
  function Newest(m: map<int, Event>): (r: seq<Event>)
    ensures |r| == |NewestKeys(m.Keys)|
    ensures forall i :: 0 <= i < |r| ==> r[i] == m[NewestKeys(m.Keys)[i]]
  {
    Entries(m, NewestKeys(m.Keys))
  }

  /** The entries of a map under some of its keys. */
  function Entries(m: map<int, Event>, keys: seq<int>): (r: seq<Event>)
    requires forall i :: 0 <= i < |keys| ==> keys[i] in m
    ensures |r| == |keys| && forall i :: 0 <= i < |r| ==> r[i] == m[keys[i]]
  {
    seq(|keys|, i requires 0 <= i < |keys| => m[keys[i]])
  }

  // ---------------------------------------------------------------------------
  // The highest keys of a set
  // ---------------------------------------------------------------------------

  ghost predicate IsTop(keys: set<int>, top: set<int>) {
    && top <= keys
    && |top| == Min(|keys|, LIMIT)
    && forall x, y :: x in top && y in keys && y !in top ==> y < x
  }

  lemma CardinalityUpTo<T>(small: set<T>, big: set<T>)
    requires small <= big
    ensures |small| <= |big|
    ensures |small| == |big| ==> small == big
  {
    assert big == small + (big - small);
    if |small| == |big| {
      assert |big - small| == 0;
    }
  }

  lemma TopUnique(keys: set<int>, a: set<int>, b: set<int>)
    requires IsTop(keys, a) && IsTop(keys, b)
    ensures a == b
  {
    if a <= b {
      CardinalityUpTo(a, b);
    } else if b <= a {
      CardinalityUpTo(b, a);
    } else {
      var x := Outside(a, b);
      var y := Outside(b, a);
      assert false;
    }
  }

  /** Forgetting all but the highest keys does not change the highest keys of a later union. */
  lemma TopOfUnion(keys: set<int>, top: set<int>, added: set<int>, u: set<int>)
    requires IsTop(keys, top) && IsTop(keys + added, u)
    ensures IsTop(top + added, u)
  {
    if !(u <= top + added) {
      var x := Outside(u, top + added);
      CardinalityUpTo(top, keys);
      assert |top| == LIMIT;
      assert top <= u by {
        forall t | t in top
          ensures t in u
        {
          assert x < t;
        }
      }
      assert |top + {x}| == LIMIT + 1;
      CardinalityUpTo(top + {x}, u);
      assert false;
    }
    CardinalityUpTo(u, top + added);
    CardinalityUpTo(top + added, keys + added);
  }

  lemma NewestKeysAreTop(keys: set<int>)
    ensures IsTop(keys, Elements(NewestKeys(keys)))
  {
    var r := NewestKeys(keys);
    AscendingCardinality(r);
    forall x, y | x in r && y in keys && y !in r
      ensures y < x
    {
      LeftOutIsLower(keys, x, y);
    }
  }

  lemma LeftOutIsLower(keys: set<int>, x: int, y: int)
    requires x in NewestKeys(keys) && y in keys && y !in NewestKeys(keys)
    ensures y < x
  {
    var all := Sorted(keys);
    SuffixIsHigher(all, if |all| > LIMIT then |all| - LIMIT else 0, x, y);
  }

  lemma SuffixIsHigher(all: seq<int>, cut: nat, x: int, y: int)
    requires StrictlyAscending(all) && cut <= |all| && x in all[cut..] && y in all && y !in all[cut..]
    ensures y < x
  {
    var i :| 0 <= i < |all| && all[i] == y;
    var j :| 0 <= j < |all| - cut && all[cut..][j] == x;
    assert forall k :: cut <= k < |all| ==> all[cut..][k - cut] == all[k];
  }

  lemma {:induction false} AscendingCardinality(s: seq<int>)
    requires StrictlyAscending(s)
    ensures |Elements(s)| == |s|
  {
    if s == [] {
      assert Elements(s) == {};
    } else {
      var front, last := s[..|s| - 1], s[|s| - 1];
      AscendingCardinality(front);
      assert s == front + [last];
      assert Elements(s) == Elements(front) + {last};
    }
  }

  // ---------------------------------------------------------------------------
  // Merging refines the log
  // ---------------------------------------------------------------------------

  /** The numbers of some events. */
  function Numbers(events: seq<Event>): set<int> {
    set i | 0 <= i < |events| :: events[i].number
  }

  /** The ring, the acknowledged number, and the log of everything merged so far. */
  datatype State = State(ring: seq<Event>, highest: int, log: seq<Event>)

  /** Merging events into a ring: both go through one ordered map, the newest entries stay. */
  function Merged(ring: seq<Event>, incoming: seq<Event>): seq<Event> {
    Newest(Inserted(Inserted(map[], ring), incoming))
  }

  function NextHighest(current: int, ring: seq<Event>): int {
    if ring == [] then current else Max(current, ring[|ring| - 1].number)
  }

  ghost predicate Refines(s: State) {
    && s.ring == Newest(Inserted(map[], s.log))
    && IsHighest(s.highest, Numbers(s.log))
  }

  /** `h` is the greatest of -1 and the numbers. */
  ghost predicate IsHighest(h: int, numbers: set<int>) {
    && h >= -1
    && (forall n :: n in numbers ==> n <= h)
    && (h == -1 || h in numbers)
  }

  lemma {:induction false} InsertedKeys(m: map<int, Event>, events: seq<Event>)
    ensures Inserted(m, events).Keys == m.Keys + Numbers(events)
    ensures (forall k :: k in m ==> m[k].number == k) ==>
              forall k :: k in Inserted(m, events) ==> Inserted(m, events)[k].number == k
  {
    if events != [] {
      var front, last := events[..|events| - 1], events[|events| - 1];
      InsertedKeys(m, front);
      assert events == front + [last];
      assert Numbers(events) == Numbers(front) + {last.number};
    }
  }

  lemma {:induction false} InsertedConcat(m: map<int, Event>, a: seq<Event>, b: seq<Event>)
    ensures Inserted(m, a + b) == Inserted(Inserted(m, a), b)
  {
    if b == [] {
      assert a + b == a;
    } else {
      assert (a + b)[..|a + b| - 1] == a + b[..|b| - 1];
      InsertedConcat(m, a, b[..|b| - 1]);
    }
  }

  /** Inserting the same events into two maps that agree on some keys keeps them agreeing. */
  lemma {:induction false} InsertedAgree(m: map<int, Event>, n: map<int, Event>, events: seq<Event>)
    requires m.Keys <= n.Keys && forall k :: k in m ==> m[k] == n[k]
    ensures var m', n' := Inserted(m, events), Inserted(n, events);
            m'.Keys <= n'.Keys && forall k :: k in m' ==> m'[k] == n'[k]
  {
    if events != [] {
      InsertedAgree(m, n, events[..|events| - 1]);
    }
  }

  /** Reading back the newest entries of a map gives the map restricted to its newest keys. */
  lemma {:induction false} ReadBack(m: map<int, Event>, ring: seq<Event>)
    requires forall i :: 0 <= i < |ring| ==> ring[i].number in m && m[ring[i].number] == ring[i]
    ensures var back := Inserted(map[], ring);
            back.Keys <= m.Keys && back.Keys == Numbers(ring) && forall k :: k in back ==> back[k] == m[k]
  {
    if ring != [] {
      ReadBack(m, ring[..|ring| - 1]);
    }
    InsertedKeys(map[], ring);
  }

  /** Maps that agree on their common newest keys have the same newest entries. */
  lemma NewestAgree(m: map<int, Event>, n: map<int, Event>)
    requires m.Keys <= n.Keys && forall k :: k in m ==> m[k] == n[k]
    requires IsTop(m.Keys, Elements(NewestKeys(n.Keys)))
    ensures Newest(m) == Newest(n)
  {
    NewestKeysAreTop(m.Keys);
    TopUnique(m.Keys, Elements(NewestKeys(m.Keys)), Elements(NewestKeys(n.Keys)));
    forall k
      ensures k in NewestKeys(m.Keys) <==> k in NewestKeys(n.Keys)
    {
      assert k in NewestKeys(m.Keys) <==> k in Elements(NewestKeys(m.Keys));
      assert k in NewestKeys(n.Keys) <==> k in Elements(NewestKeys(n.Keys));
    }
    SortedUnique(NewestKeys(m.Keys), NewestKeys(n.Keys));
  }

  lemma RingNumbers(m: map<int, Event>)
    requires forall k :: k in m ==> m[k].number == k
    ensures forall i :: 0 <= i < |Newest(m)| ==> Newest(m)[i].number == NewestKeys(m.Keys)[i]
  {
    var keys := NewestKeys(m.Keys);
    assert forall i :: 0 <= i < |keys| ==> keys[i] in m;
  }

  lemma NewestNumbers(m: map<int, Event>)
    requires forall k :: k in m ==> m[k].number == k
    ensures Numbers(Newest(m)) == Elements(NewestKeys(m.Keys))
    ensures forall i :: 0 <= i < |Newest(m)| ==> Newest(m)[i].number in m && m[Newest(m)[i].number] == Newest(m)[i]
  {
    RingNumbers(m);
    var ring, keys := Newest(m), NewestKeys(m.Keys);
    forall n | n in Elements(keys)
      ensures n in Numbers(ring)
    {
      var i :| 0 <= i < |keys| && keys[i] == n;
      assert ring[i].number == n;
    }
  }

  /** One merge of the bounded ring is one append to the log. */
  lemma MergeRefines(log: seq<Event>, incoming: seq<Event>)
    ensures Merged(Newest(Inserted(map[], log)), incoming) == Newest(Inserted(map[], log + incoming))
  {
    var full := Inserted(map[], log);
    var ring := Newest(full);
    InsertedKeys(map[], log);
    NewestNumbers(full);
    ReadBack(full, ring);
    var kept := Inserted(map[], ring);
    InsertedAgree(kept, full, incoming);
    InsertedKeys(kept, incoming);
    InsertedKeys(full, incoming);
    InsertedConcat(map[], log, incoming);
    NewestKeysAreTop(full.Keys);
    var full' := Inserted(full, incoming);
    NewestKeysAreTop(full'.Keys);
    TopOfUnion(full.Keys, kept.Keys, Numbers(incoming), Elements(NewestKeys(full'.Keys)));
    NewestAgree(Inserted(kept, incoming), full');
  }

  /** The newest entry carries the greatest number of the map. */
  lemma LastIsGreatest(m: map<int, Event>)
    requires m.Keys != {} && forall k :: k in m ==> m[k].number == k
    ensures var ring := Newest(m);
            ring != [] && var n := ring[|ring| - 1].number; n in m && forall k :: k in m ==> k <= n
  {
    RingNumbers(m);
    LastKey(m.Keys);
  }

  lemma LastKey(keys: set<int>)
    requires keys != {}
    ensures var r := NewestKeys(keys); r != [] && r[|r| - 1] in keys && forall k :: k in keys ==> k <= r[|r| - 1]
  {
    var all := Sorted(keys);
    LastOfSuffix(all, if |all| > LIMIT then |all| - LIMIT else 0);
    forall k | k in keys
      ensures k in all
    {
    }
  }

  lemma LastOfSuffix(all: seq<int>, cut: nat)
    requires StrictlyAscending(all) && cut < |all|
    ensures forall k :: k in all ==> k <= all[cut..][|all| - cut - 1]
  {
  }

  lemma NumbersConcat(a: seq<Event>, b: seq<Event>)
    ensures Numbers(a + b) == Numbers(a) + Numbers(b)
  {
    forall n | n in Numbers(b)
      ensures n in Numbers(a + b)
    {
      var i :| 0 <= i < |b| && b[i].number == n;
      assert (a + b)[|a| + i].number == n;
    }
    forall n | n in Numbers(a)
      ensures n in Numbers(a + b)
    {
      var i :| 0 <= i < |a| && a[i].number == n;
      assert (a + b)[i].number == n;
    }
  }

  lemma HighestOfMore(h: int, h': int, some: set<int>, more: set<int>)
    requires IsHighest(h, some) && IsHighest(h', some + more)
    ensures h <= h'
    ensures (forall n :: n in more ==> n <= -1) ==> h' == h
  {
  }

  lemma HighestAdvances(before: seq<Event>, incoming: seq<Event>, h: int)
    requires IsHighest(h, Numbers(before))
    ensures var log := before + incoming;
            IsHighest(NextHighest(h, Newest(Inserted(map[], log))), Numbers(log))
  {
    var log := before + incoming;
    NumbersConcat(before, incoming);
    InsertedKeys(map[], log);
    var m := Inserted(map[], log);
    assert m.Keys == Numbers(log);
    if m.Keys != {} {
      LastIsGreatest(m);
    } else {
      NothingNewest(m);
    }
  }

  lemma NothingNewest(m: map<int, Event>)
    requires m.Keys == {}
    ensures Newest(m) == []
  {
    assert |m.Keys| == 0;
  }

  /** A number below every number in the ring and below zero. */
  function NextSynthetic(ring: seq<Event>): (n: int)
    ensures n <= -1
    ensures forall i :: 0 <= i < |ring| ==> n < ring[i].number
    ensures n == -1 || n + 1 in Numbers(ring)
  {
    Lowest(ring) - 1
  }

  function Lowest(ring: seq<Event>): (n: int)
    ensures n <= 0
    ensures forall i :: 0 <= i < |ring| ==> n <= ring[i].number
    ensures n == 0 || n in Numbers(ring)
  {
    if ring == [] then 0
    else
      var front := ring[..|ring| - 1];
      assert Numbers(ring) == Numbers(front) + {ring[|ring| - 1].number};
      assert forall i :: 0 <= i < |front| ==> ring[i] == front[i];
      Min(Lowest(front), ring[|ring| - 1].number)
  }

  // ---------------------------------------------------------------------------
  // Runs
  // ---------------------------------------------------------------------------

  /** A batch from a state sync, one recorded notification, or a synthetic notification. */
  datatype Op = Sync(events: seq<Event>) | Record(event: Event) | Synthetic(notification: Notification)

  function Incoming(s: State, op: Op): seq<Event> {
    match op
    case Sync(events) => events
    case Record(event) => [event]
    case Synthetic(notification) => [Event(NextSynthetic(s.ring), notification)]
  }

  function Apply(s: State, op: Op): State {
    var incoming := Incoming(s, op);
    var ring := Merged(s.ring, incoming);
    State(ring, NextHighest(s.highest, ring), s.log + incoming)
  }

  function Run(ops: seq<Op>): State {
    if ops == [] then State([], -1, []) else Apply(Run(ops[..|ops| - 1]), ops[|ops| - 1])
  }

  /** After any run, however batched, the ring is the newest part of the log and the acknowledged
      number is the greatest ever merged (or -1). */
  lemma {:induction false} RunRefines(ops: seq<Op>)
    ensures Refines(Run(ops))
  {
    if ops == [] {
      assert NewestKeys({}) == [];
    } else {
      var s := Run(ops[..|ops| - 1]);
      RunRefines(ops[..|ops| - 1]);
      var incoming := Incoming(s, ops[|ops| - 1]);
      MergeRefines(s.log, incoming);
      HighestAdvances(s.log, incoming, s.highest);
    }
  }

  /** Event `i` of a log is the last one with its number. */
  ghost predicate Latest(log: seq<Event>, i: nat)
    requires i < |log|
  {
    forall j :: i < j < |log| ==> log[j].number != log[i].number
  }

  function Higher(numbers: set<int>, n: int): set<int> {
    set k | k in numbers && n < k
  }

  lemma {:induction false} LatestIsRead(log: seq<Event>, i: nat)
    requires i < |log| && Latest(log, i)
    ensures var m := Inserted(map[], log); log[i].number in m && m[log[i].number] == log[i]
  {
    var front := log[..|log| - 1];
    if i < |front| {
      assert Latest(front, i) by {
        assert forall j :: i < j < |front| ==> front[j] == log[j];
      }
      LatestIsRead(front, i);
      assert log[|log| - 1].number != log[i].number;
    }
  }

  lemma {:induction false} ReadIsLatest(log: seq<Event>, n: int) returns (i: nat)
    requires n in Numbers(log)
    ensures i < |log| && Latest(log, i) && log[i].number == n
  {
    i := |log| - 1;
    while log[i].number != n
      invariant i < |log|
      invariant forall j :: i < j < |log| ==> log[j].number != n
      decreases i
    {
      var k :| 0 <= k < |log| && log[k].number == n;
      i := i - 1;
    }
  }

  lemma TopExactly(keys: set<int>, top: set<int>, n: int)
    requires IsTop(keys, top) && n in keys
    ensures n in top <==> |Higher(keys, n)| < LIMIT
  {
    var higher := Higher(keys, n);
    if n in top {
      assert higher <= top - {n};
      CardinalityUpTo(higher, top - {n});
    } else {
      CardinalityUpTo(top, keys);
      assert top <= higher;
      CardinalityUpTo(top, higher);
    }
  }

  /** What a ring holds after any run, said of the log alone: the last event merged under a number,
      if and only if fewer than `LIMIT` greater numbers were ever merged. */
  lemma RingHolds(ops: seq<Op>, e: Event)
    ensures var log := Run(ops).log;
            e in Run(ops).ring <==>
            && (exists i :: 0 <= i < |log| && Latest(log, i) && log[i] == e)
            && |Higher(Numbers(log), e.number)| < LIMIT
  {
    RunRefines(ops);
    NewestOfLog(Run(ops).log, e);
  }

  lemma NewestOfLog(log: seq<Event>, e: Event)
    ensures e in Newest(Inserted(map[], log)) <==>
            && (exists i :: 0 <= i < |log| && Latest(log, i) && log[i] == e)
            && |Higher(Numbers(log), e.number)| < LIMIT
  {
    var m, n := Inserted(map[], log), e.number;
    InsertedKeys(map[], log);
    assert m.Keys == Numbers(log);
    NewestHolds(m, e);
    NewestKeysAreTop(m.Keys);
    if n in m {
      TopExactly(m.Keys, Elements(NewestKeys(m.Keys)), n);
      LatestExactly(log, e);
    }
  }

  lemma LatestExactly(log: seq<Event>, e: Event)
    requires e.number in Inserted(map[], log) && e.number in Numbers(log)
    ensures Inserted(map[], log)[e.number] == e <==> exists i :: 0 <= i < |log| && Latest(log, i) && log[i] == e
  {
    var i := ReadIsLatest(log, e.number);
    LatestIsRead(log, i);
  }

  lemma NewestHolds(m: map<int, Event>, e: Event)
    requires forall k :: k in m ==> m[k].number == k
    ensures e in Newest(m) <==> e.number in NewestKeys(m.Keys) && m[e.number] == e
  {
    var keys := NewestKeys(m.Keys);
    if e.number in keys && m[e.number] == e {
      var i :| 0 <= i < |keys| && keys[i] == e.number;
      assert Newest(m)[i] == e;
    }
  }

  /** Nothing merged is lost on the way to the log: a sync adds its events, a recorded notification
      itself, a synthetic one an event with its notification and a number of its own, below zero and
      below everything in the ring. */
  lemma LogGrows(ops: seq<Op>, op: Op)
    ensures var s, t := Run(ops), Run(ops + [op]);
            && s.log <= t.log
            && var added := t.log[|s.log|..];
               match op
               case Sync(events) => added == events
               case Record(event) => added == [event]
               case Synthetic(notification) =>
                 && |added| == 1 && added[0].notification == notification && added[0].number < 0
                 && forall i :: 0 <= i < |s.ring| ==> added[0].number < s.ring[i].number
  {
    assert (ops + [op])[..|ops|] == ops;
    var s := Run(ops);
    var numbers := Numbers(s.ring);
    assert forall i :: 0 <= i < |s.ring| ==> s.ring[i].number in numbers;
  }

  /** Two runs that merge the same events, batched in any way, end with the same ring and number. */
  lemma BatchingIrrelevant(a: seq<Op>, b: seq<Op>)
    requires Run(a).log == Run(b).log
    ensures Run(a).ring == Run(b).ring && Run(a).highest == Run(b).highest
  {
    RunRefines(a);
    RunRefines(b);
  }

  /** The ring is strictly ascending and never longer than the limit. */
  lemma RingShape(ops: seq<Op>)
    ensures var ring := Run(ops).ring;
            |ring| <= LIMIT && forall i, j :: 0 <= i < j < |ring| ==> ring[i].number < ring[j].number
  {
    RunRefines(ops);
    var m := Inserted(map[], Run(ops).log);
    InsertedKeys(map[], Run(ops).log);
    RingNumbers(m);
  }

  /** A step never lowers the acknowledged number, and a synthetic step never moves it. */
  lemma HighestMonotone(ops: seq<Op>, op: Op)
    ensures Run(ops).highest <= Run(ops + [op]).highest
    ensures op.Synthetic? ==> Run(ops + [op]).highest == Run(ops).highest
  {
    assert (ops + [op])[..|ops|] == ops;
    RunRefines(ops);
    RunRefines(ops + [op]);
    var s, incoming := Run(ops), Incoming(Run(ops), op);
    NumbersConcat(s.log, incoming);
    HighestOfMore(s.highest, Run(ops + [op]).highest, Numbers(s.log), Numbers(incoming));
  }

  /** A synthetic event goes to the front of a ring with room and is dropped from a full one. */
  lemma SyntheticRetention(ops: seq<Op>, notification: Notification)
    ensures var s, t := Run(ops), Run(ops + [Synthetic(notification)]);
            t.ring == if |s.ring| < LIMIT then [Event(NextSynthetic(s.ring), notification)] + s.ring else s.ring
  {
    var op := Synthetic(notification);
    assert (ops + [op])[..|ops|] == ops;
    RingShape(ops);
    MergeLowest(Run(ops).ring, Event(NextSynthetic(Run(ops).ring), notification));
  }

  function KeySeq(ring: seq<Event>): seq<int> {
    seq(|ring|, i requires 0 <= i < |ring| => ring[i].number)
  }

  lemma KeySeqNumbers(ring: seq<Event>)
    ensures forall k :: k in KeySeq(ring) <==> k in Numbers(ring)
  {
    forall k | k in Numbers(ring)
      ensures k in KeySeq(ring)
    {
      var i :| 0 <= i < |ring| && ring[i].number == k;
      assert KeySeq(ring)[i] == k;
    }
  }

  lemma MergeLowest(ring: seq<Event>, e: Event)
    requires |ring| <= LIMIT
    requires forall i, j :: 0 <= i < j < |ring| ==> ring[i].number < ring[j].number
    requires forall i :: 0 <= i < |ring| ==> e.number < ring[i].number
    ensures Merged(ring, [e]) == if |ring| < LIMIT then [e] + ring else ring
  {
    MapOf(ring, e);
    var all := [e] + ring;
    NewestOfAscending(Inserted(Inserted(map[], ring), [e]), all);
    assert all[1..] == ring;
  }

  /** A map made of ascending entries holds just those entries, in that order. */
  lemma NewestOfAscending(m: map<int, Event>, all: seq<Event>)
    requires forall i, j :: 0 <= i < j < |all| ==> all[i].number < all[j].number
    requires m.Keys == Numbers(all)
    requires forall i :: 0 <= i < |all| ==> m[all[i].number] == all[i]
    ensures Newest(m) == Trim(all)
  {
    SortedKeysOf(m.Keys, all);
    EntriesInOrder(m, Sorted(m.Keys), all);
    NewestIsSuffix(m);
  }

  lemma EntriesInOrder(m: map<int, Event>, keys: seq<int>, all: seq<Event>)
    requires |keys| == |all| && forall i :: 0 <= i < |all| ==>
               keys[i] == all[i].number && keys[i] in m && m[keys[i]] == all[i]
    ensures Entries(m, keys) == all
  {
  }

  lemma SortedKeysOf(keys: set<int>, all: seq<Event>)
    requires forall i, j :: 0 <= i < j < |all| ==> all[i].number < all[j].number
    requires keys == Numbers(all)
    ensures Sorted(keys) == KeySeq(all)
  {
    KeySeqNumbers(all);
    SortedUnique(Sorted(keys), KeySeq(all));
  }

  lemma MapOf(ring: seq<Event>, e: Event)
    requires forall i, j :: 0 <= i < j < |ring| ==> ring[i].number < ring[j].number
    requires forall i :: 0 <= i < |ring| ==> e.number < ring[i].number
    ensures var m := Inserted(Inserted(map[], ring), [e]);
            m.Keys == Numbers([e] + ring)
            && forall i :: 0 <= i < |ring| + 1 ==> m[([e] + ring)[i].number] == ([e] + ring)[i]
  {
    AscendingEntries(ring);
    InsertedKeys(map[], ring);
    NumbersConcat([e], ring);
    assert [e][0].number in Numbers([e]);
    assert Numbers([e]) == {e.number};
    assert [e][..0] == [];
    assert Inserted(Inserted(map[], ring), [e]) == Inserted(map[], ring)[e.number := e];
  }

  lemma {:induction false} AscendingEntries(ring: seq<Event>)
    requires forall i, j :: 0 <= i < j < |ring| ==> ring[i].number < ring[j].number
    ensures forall i :: 0 <= i < |ring| ==> ring[i].number in Inserted(map[], ring)
                                            && Inserted(map[], ring)[ring[i].number] == ring[i]
  {
    if ring != [] {
      AscendingEntries(ring[..|ring| - 1]);
    }
  }

  // ---------------------------------------------------------------------------
  // The session entry
  // ---------------------------------------------------------------------------

  const TWO_63 := 0x8000_0000_0000_0000

  /** A wire sequence number read as a signed 64-bit value. */
  function AsI64(n: nat): int
    requires n < 2 * TWO_63
  {
    if n < TWO_63 then n else n - 2 * TWO_63
  }

  datatype WireEvent = WireEvent(number: nat, notification: Option<Notification>)

  /** The wire events whose notification deserializes, with their numbers as signed values. */
  function Decoded(events: seq<WireEvent>): seq<Event>
    requires forall i :: 0 <= i < |events| ==> events[i].number < 2 * TWO_63
  {
    if events == [] then []
    else
      var last := events[|events| - 1];
      Decoded(events[..|events| - 1])
      + (if last.notification.Some? then [Event(AsI64(last.number), last.notification.value)] else [])
  }

  /** How many of the first `n` wire events decode. */
  function Decodable(events: seq<WireEvent>, n: nat): nat
    requires n <= |events|
  {
    if n == 0 then 0 else Decodable(events, n - 1) + (if events[n - 1].notification.Some? then 1 else 0)
  }

  /** The wire events that decode are kept, in order, and no others. */
  lemma {:induction false} DecodedKeeps(events: seq<WireEvent>, n: nat)
    requires n <= |events| && forall i :: 0 <= i < |events| ==> events[i].number < 2 * TWO_63
    ensures |Decoded(events[..n])| == Decodable(events, n)
    ensures forall i :: 0 <= i < n && events[i].notification.Some? ==>
              && Decodable(events, i) < Decodable(events, n)
              && Decoded(events[..n])[Decodable(events, i)] ==
                 Event(AsI64(events[i].number), events[i].notification.value)
  {
    if n > 0 {
      DecodedKeeps(events, n - 1);
      assert events[..n][..n - 1] == events[..n - 1];
    }
  }

  /** A wire number and its signed reading are the same modulo 2^64. */
  lemma SignedReading(n: nat)
    requires n < 2 * TWO_63
    ensures -TWO_63 <= AsI64(n) < TWO_63 && (n - AsI64(n)) % (2 * TWO_63) == 0
  {
  }

  /** The entries of an ordered map in key order. */
  function Values(m: map<int, Event>): (r: seq<Event>)
    ensures |r| == |Sorted(m.Keys)| && forall i :: 0 <= i < |r| ==> r[i] == m[Sorted(m.Keys)[i]]
  {
    Entries(m, Sorted(m.Keys))
  }

  /** The last `LIMIT` of some entries. */
  function Trim(values: seq<Event>): seq<Event> {
    if |values| > LIMIT then values[|values| - LIMIT..] else values
  }

  lemma NewestIsSuffix(m: map<int, Event>)
    ensures Newest(m) == Trim(Values(m))
  {
    var all := Sorted(m.Keys);
    if |all| > LIMIT {
      EntriesSuffix(m, all, |all| - LIMIT);
    }
  }

  lemma EntriesSuffix(m: map<int, Event>, keys: seq<int>, j: nat)
    requires j <= |keys| && forall i :: 0 <= i < |keys| ==> keys[i] in m
    ensures Entries(m, keys[j..]) == Entries(m, keys)[j..]
  {
  }

  method InsertAll(m: map<int, Event>, events: seq<Event>) returns (r: map<int, Event>)
    ensures r == Inserted(m, events)
  {
    r := m;
    var i := 0;
    while i < |events|
      invariant 0 <= i <= |events|
      invariant r == Inserted(m, events[..i])
    {
      assert events[..i + 1][..i] == events[..i];
      r := r[events[i].number := events[i]];
      i := i + 1;
    }
    assert events[..i] == events;
  }

  method MergeInto(ring: seq<Event>, incoming: seq<Event>) returns (merged: seq<Event>)
    ensures merged == Merged(ring, incoming)
  {
    var bySequence := InsertAll(map[], ring);
    bySequence := InsertAll(bySequence, incoming);
    merged := NewestValues(bySequence);
  }

  method NewestValues(m: map<int, Event>) returns (r: seq<Event>)
    ensures r == Newest(m)
  {
    NewestIsSuffix(m);
    r := DropOldest(Values(m));
  }

  method DropOldest(values: seq<Event>) returns (r: seq<Event>)
    ensures r == Trim(values)
  {
    r := values;
    if |r| > LIMIT {
      r := r[|r| - LIMIT..];
    }
  }

  lemma RunSnoc(ops: seq<Op>, op: Op)
    ensures Run(ops + [op]) == Apply(Run(ops), op)
  {
    assert (ops + [op])[..|ops|] == ops;
  }

  lemma RecordIsSync(s: State, event: Event)
    ensures Apply(s, Record(event)) == Apply(s, Sync([event]))
  {
  }

  lemma SyntheticIsRecord(s: State, notification: Notification)
    ensures Apply(s, Synthetic(notification)) == Apply(s, Record(Event(NextSynthetic(s.ring), notification)))
  {
  }

  /** `ops` are the operations so far, so everything proved of runs holds of the object. */
  class SessionEntry {
    var ring: seq<Event>
    var highest: int
    ghost var log: seq<Event>
    ghost var ops: seq<Op>

    ghost function View(): State
      reads this
    {
      State(ring, highest, log)
    }

    ghost predicate Valid()
      reads this
    {
      View() == Run(ops)
    }

    constructor ()
      ensures Valid() && ops == []
    {
      ring, highest, log, ops := [], -1, [], [];
    }

    method MergeSequencedEvents(incoming: seq<Event>)
      modifies `ring, `log
      ensures ring == Merged(old(ring), incoming) && log == old(log) + incoming
    {
      ring := MergeInto(ring, incoming);
      log := log + incoming;
    }

    method Advance()
      modifies `highest
      ensures highest == NextHighest(old(highest), ring)
    {
      if ring != [] {
        var latest := ring[|ring| - 1].number;
        if latest > highest {
          highest := latest;
        }
      }
    }

    /** The two calls every recording makes. */
    method Absorb(incoming: seq<Event>)
      modifies `ring, `highest, `log
      ensures View() == Apply(old(View()), Sync(incoming))
    {
      MergeSequencedEvents(incoming);
      Advance();
    }

    method SyncSessionState(events: seq<WireEvent>)
      requires Valid() && forall i :: 0 <= i < |events| ==> events[i].number < 2 * TWO_63
      modifies this
      ensures Valid() && ops == old(ops) + [Sync(Decoded(events))]
    {
      Absorb(Decoded(events));
      ops := ops + [Sync(Decoded(events))];
      RunSnoc(old(ops), Sync(Decoded(events)));
    }

    method RecordSessionNotification(number: int, notification: Notification)
      requires Valid()
      modifies this
      ensures Valid() && ops == old(ops) + [Record(Event(number, notification))]
    {
      RecordIsSync(View(), Event(number, notification));
      Absorb([Event(number, notification)]);
      ops := ops + [Record(Event(number, notification))];
      RunSnoc(old(ops), Record(Event(number, notification)));
    }

    /** The codex fallback announces a config change under a synthetic number. */
    method RecordSynthetic(notification: Notification)
      requires Valid()
      modifies this
      ensures Valid() && ops == old(ops) + [Synthetic(notification)]
    {
      var number := NextSynthetic(ring);
      SyntheticIsRecord(View(), notification);
      RecordSessionNotification(number, notification);
      RunSnoc(old(ops), Record(Event(number, notification)));
      RunSnoc(old(ops), Synthetic(notification));
      ops := old(ops) + [Synthetic(notification)];
    }

    /** What a hydration request acknowledges: the greatest number ever merged, unless all were
        synthetic. */
    method Acknowledged() returns (n: Option<int>)
      requires Valid()
      ensures n.Some? ==> 0 <= n.value && n.value in Numbers(log) && forall m :: m in Numbers(log) ==> m <= n.value
      ensures n.None? ==> forall m :: m in Numbers(log) ==> m < 0
    {
      RunRefines(ops);
      n := if highest >= 0 then Some(highest) else None;
    }
  }
}
