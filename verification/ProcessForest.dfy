/**
The forest assembled from a flat process list, children linked by parent pid. The list may name the
same pid twice and its parent links may form cycles.
 */
module ProcessForest {
  import opened Core

  datatype Status = Running | Exited

  datatype ProcessInfo = ProcessInfo(pid: int, ppid: int, pgid: int, sid: int, driver: string, command: string,
                                     args: seq<string>, cwd: string, status: Status, exitCode: Option<int>)

  datatype Node = Node(info: ProcessInfo, children: seq<Node>)

  predicate DistinctPids(ps: seq<ProcessInfo>) {
    forall i, j :: 0 <= i < j < |ps| ==> ps[i].pid != ps[j].pid
  }

  // ---------------------------------------------------------------------------
  // Parents and chains
  // ---------------------------------------------------------------------------

  /** The position of a pid in the list. */
  function IndexOf(ps: seq<ProcessInfo>, pid: int): (r: Option<nat>)
    ensures r.Some? ==> r.value < |ps| && ps[r.value].pid == pid
    ensures r.None? ==> forall i :: 0 <= i < |ps| ==> ps[i].pid != pid
  {
    if ps == [] then None
    else if ps[|ps| - 1].pid == pid then Some(|ps| - 1)
    else IndexOf(ps[..|ps| - 1], pid)
  }

  function ParentOf(ps: seq<ProcessInfo>, i: nat): (r: Option<nat>)
    requires i < |ps|
    ensures r.Some? ==> r.value < |ps| && ps[r.value].pid == ps[i].ppid
    ensures r.None? ==> forall j :: 0 <= j < |ps| ==> ps[j].pid != ps[i].ppid
  {
    IndexOf(ps, ps[i].ppid)
  }

  lemma ParentIs(ps: seq<ProcessInfo>, i: nat, j: nat)
    requires DistinctPids(ps) && i < |ps| && j < |ps|
    ensures ParentOf(ps, j) == Some(i) <==> ps[j].ppid == ps[i].pid
  {
  }

  /** The `k`-th ancestor, if the chain does not leave the list before. */
  function Climb(ps: seq<ProcessInfo>, i: nat, k: nat): (r: Option<nat>)
    requires i < |ps|
    ensures r.Some? ==> r.value < |ps|
    decreases k
  {
    if k == 0 then Some(i)
    else match ParentOf(ps, i)
      case None => None
      case Some(p) => Climb(ps, p, k - 1)
  }

  /** The chain of `i` leaves the list after `d` ancestors. */
  predicate LeavesAfter(ps: seq<ProcessInfo>, i: nat, d: nat)
    requires i < |ps|
    decreases d
  {
    match ParentOf(ps, i)
    case None => d == 0
    case Some(p) => d > 0 && LeavesAfter(ps, p, d - 1)
  }

  ghost predicate Rooted(ps: seq<ProcessInfo>, i: nat)
    requires i < |ps|
  {
    exists d: nat :: LeavesAfter(ps, i, d)
  }

  lemma {:induction false} LeavesOnce(ps: seq<ProcessInfo>, i: nat, d: nat, e: nat)
    requires i < |ps| && LeavesAfter(ps, i, d) && LeavesAfter(ps, i, e)
    ensures d == e
    decreases d
  {
    if d > 0 && e > 0 {
      LeavesOnce(ps, ParentOf(ps, i).value, d - 1, e - 1);
    }
  }

  lemma {:induction false} ClimbLeaves(ps: seq<ProcessInfo>, x: nat, k: nat, d: nat)
    requires x < |ps| && Climb(ps, x, k).Some? && LeavesAfter(ps, Climb(ps, x, k).value, d)
    ensures LeavesAfter(ps, x, k + d)
    decreases k
  {
    if k > 0 {
      ClimbLeaves(ps, ParentOf(ps, x).value, k - 1, d);
    }
  }

  lemma {:induction false} ClimbToRoot(ps: seq<ProcessInfo>, x: nat, d: nat)
    requires x < |ps| && LeavesAfter(ps, x, d)
    ensures Climb(ps, x, d).Some? && ParentOf(ps, Climb(ps, x, d).value).None?
    decreases d
  {
    if d > 0 {
      ClimbToRoot(ps, ParentOf(ps, x).value, d - 1);
    }
  }

  lemma {:induction false} ClimbMore(ps: seq<ProcessInfo>, x: nat, k: nat, m: nat)
    requires x < |ps| && Climb(ps, x, k).Some?
    ensures Climb(ps, x, k + m) == Climb(ps, Climb(ps, x, k).value, m)
    decreases k
  {
    if k > 0 {
      ClimbMore(ps, ParentOf(ps, x).value, k - 1, m);
    }
  }

  // ---------------------------------------------------------------------------
  // Cycles
  // ---------------------------------------------------------------------------

  ghost predicate OnCycle(ps: seq<ProcessInfo>, i: nat)
    requires i < |ps|
  {
    exists k: nat :: k > 0 && Climb(ps, i, k) == Some(i)
  }

  ghost predicate BelowCycle(ps: seq<ProcessInfo>, x: nat)
    requires x < |ps|
  {
    exists k: nat :: Climb(ps, x, k).Some? && OnCycle(ps, Climb(ps, x, k).value)
  }

  ghost function Chain(ps: seq<ProcessInfo>, x: nat, n: nat): (s: seq<nat>)
    requires x < |ps| && forall k: nat :: k < n ==> Climb(ps, x, k).Some?
    ensures |s| == n && forall k :: 0 <= k < n ==> s[k] < |ps| && Climb(ps, x, k) == Some(s[k])
  {
    seq(n, k requires 0 <= k < n => Climb(ps, x, k).value)
  }

  function Range(n: nat): (r: set<nat>)
    ensures |r| == n && forall k :: k in r <==> 0 <= k < n
  {
    if n == 0 then {} else Range(n - 1) + {n - 1}
  }

  lemma Repeats(s: seq<nat>, n: nat)
    requires |s| > n && forall k :: 0 <= k < |s| ==> s[k] < n
    ensures exists i, j :: 0 <= i < j < |s| && s[i] == s[j]
  {
    if Distinct(s) {
      Fits(s, Range(n));
    }
  }

  lemma {:induction false} Fits(s: seq<nat>, u: set<nat>)
    requires Distinct(s) && forall k :: 0 <= k < |s| ==> s[k] in u
    ensures |s| <= |u|
  {
    if s != [] {
      Fits(s[..|s| - 1], u - {s[|s| - 1]});
    }
  }

  lemma {:induction false} LeavesAt(ps: seq<ProcessInfo>, x: nat, k: nat)
    requires x < |ps| && Climb(ps, x, k).None?
    ensures Rooted(ps, x)
    decreases k
  {
    match ParentOf(ps, x)
    case None =>
      assert LeavesAfter(ps, x, 0);
    case Some(p) =>
      LeavesAt(ps, p, k - 1);
      var d: nat :| LeavesAfter(ps, p, d);
      assert LeavesAfter(ps, x, d + 1);
  }

  /** A chain that never leaves the list comes round to where it has been. */
  lemma UnrootedCycles(ps: seq<ProcessInfo>, x: nat)
    requires x < |ps| && !Rooted(ps, x)
    ensures BelowCycle(ps, x)
  {
    var n := |ps| + 1;
    forall k: nat
      ensures Climb(ps, x, k).Some?
    {
      if Climb(ps, x, k).None? {
        LeavesAt(ps, x, k);
      }
    }
    var s := Chain(ps, x, n);
    Repeats(s, |ps|);
    var i, j :| 0 <= i < j < n && s[i] == s[j];
    ClimbMore(ps, x, i, j - i);
    assert Climb(ps, s[i], j - i) == Some(s[i]);
  }

  lemma NoTurns(ps: seq<ProcessInfo>, i: nat, k: nat, d: nat)
    requires i < |ps| && Climb(ps, i, k) == Some(i) && LeavesAfter(ps, i, d)
    ensures k == 0
  {
    ClimbLeaves(ps, i, k, d);
    LeavesOnce(ps, i, d, k + d);
  }

  lemma {:induction false} ClimbedRooted(ps: seq<ProcessInfo>, x: nat, k: nat)
    requires x < |ps| && Rooted(ps, x) && Climb(ps, x, k).Some?
    ensures Rooted(ps, Climb(ps, x, k).value)
    decreases k
  {
    if k > 0 {
      var d: nat :| LeavesAfter(ps, x, d);
      assert LeavesAfter(ps, ParentOf(ps, x).value, d - 1);
      ClimbedRooted(ps, ParentOf(ps, x).value, k - 1);
    }
  }

  /** The processes whose chain leaves the list are exactly those not on or below a cycle. */
  lemma RootedIffNoCycle(ps: seq<ProcessInfo>, x: nat)
    requires x < |ps|
    ensures Rooted(ps, x) <==> !BelowCycle(ps, x)
  {
    if !Rooted(ps, x) {
      UnrootedCycles(ps, x);
    } else if BelowCycle(ps, x) {
      var k: nat :| Climb(ps, x, k).Some? && OnCycle(ps, Climb(ps, x, k).value);
      ClimbedRooted(ps, x, k);
      var i := Climb(ps, x, k).value;
      var m: nat :| m > 0 && Climb(ps, i, m) == Some(i);
      var d: nat :| LeavesAfter(ps, i, d);
      NoTurns(ps, i, m, d);
    }
  }

  // ---------------------------------------------------------------------------
  // What the forest should be
  // ---------------------------------------------------------------------------

  /** The positions below `n` of the processes with parent `pid`, in list order. */
  function WithParent(ps: seq<ProcessInfo>, pid: int, n: nat): (r: seq<nat>)
    requires n <= |ps|
    ensures forall j :: j in r <==> 0 <= j < n && ps[j].ppid == pid
    ensures forall a :: 0 <= a < |r| ==> r[a] < n
    ensures forall a, b :: 0 <= a < b < |r| ==> r[a] < r[b]
  {
    if n == 0 then []
    else WithParent(ps, pid, n - 1) + (if ps[n - 1].ppid == pid then [n - 1] else [])
  }

  function Kids(ps: seq<ProcessInfo>, i: nat): seq<nat>
    requires i < |ps|
  {
    WithParent(ps, ps[i].pid, |ps|)
  }

  /** The positions below `n` of the processes whose parent is not listed, in list order. */
  function Roots(ps: seq<ProcessInfo>, n: nat): (r: seq<nat>)
    requires n <= |ps|
    ensures forall j :: j in r <==> 0 <= j < n && ParentOf(ps, j).None?
    ensures forall a :: 0 <= a < |r| ==> r[a] < n
    ensures forall a, b :: 0 <= a < b < |r| ==> r[a] < r[b]
  {
    if n == 0 then []
    else Roots(ps, n - 1) + (if ParentOf(ps, n - 1).None? then [n - 1] else [])
  }

  /** The node holds process `i`, and under it, in list order, all processes it is the parent of. */
  predicate Faithful(ps: seq<ProcessInfo>, node: Node, i: nat)
    decreases node
  {
    && i < |ps| && node.info == ps[i]
    && |node.children| == |Kids(ps, i)|
    && forall k :: 0 <= k < |node.children| ==> Faithful(ps, node.children[k], Kids(ps, i)[k])
  }

  predicate FaithfulForest(ps: seq<ProcessInfo>, forest: seq<Node>) {
    && |forest| == |Roots(ps, |ps|)|
    && forall k :: 0 <= k < |forest| ==> Faithful(ps, forest[k], Roots(ps, |ps|)[k])
  }

  /** How often a pid occurs. */
  function Count(node: Node, pid: int): nat
    decreases node
  {
    (if node.info.pid == pid then 1 else 0) + CountAll(node.children, pid)
  }

  function CountAll(nodes: seq<Node>, pid: int): nat
    decreases nodes
  {
    if nodes == [] then 0 else Count(nodes[0], pid) + CountAll(nodes[1..], pid)
  }

  ghost predicate Above(ps: seq<ProcessInfo>, i: nat, x: nat)
    requires x < |ps|
  {
    exists k: nat :: Climb(ps, x, k) == Some(i)
  }

  /** Two processes equally deep are not both above a third. */
  lemma OneAbove(ps: seq<ProcessInfo>, i: nat, j: nat, d: nat, x: nat)
    requires i < |ps| && j < |ps| && x < |ps| && LeavesAfter(ps, i, d) && LeavesAfter(ps, j, d)
    requires Above(ps, i, x) && Above(ps, j, x)
    ensures i == j
  {
    var k: nat :| Climb(ps, x, k) == Some(i);
    var m: nat :| Climb(ps, x, m) == Some(j);
    ClimbLeaves(ps, x, k, d);
    ClimbLeaves(ps, x, m, d);
    LeavesOnce(ps, x, k + d, m + d);
  }

  /** A process is above another when it is that process or some child of it is above. */
  lemma AboveThroughKid(ps: seq<ProcessInfo>, i: nat, x: nat)
    requires DistinctPids(ps) && i < |ps| && x < |ps|
    ensures Above(ps, i, x) <==> i == x || exists j :: j in Kids(ps, i) && Above(ps, j, x)
  {
    if Above(ps, i, x) && i != x {
      var k: nat :| Climb(ps, x, k) == Some(i);
      ClimbStep(ps, x, k - 1);
      var j := Climb(ps, x, k - 1).value;
      ParentIs(ps, i, j);
      assert j in Kids(ps, i) && Above(ps, j, x);
    }
    if i == x {
      assert Climb(ps, x, 0) == Some(i);
    }
    if j :| j in Kids(ps, i) && Above(ps, j, x) {
      var k: nat :| Climb(ps, x, k) == Some(j);
      ParentIs(ps, i, j);
      ClimbStep(ps, x, k);
      assert Climb(ps, x, k + 1) == Some(i);
    }
  }

  lemma {:induction false} ClimbStep(ps: seq<ProcessInfo>, x: nat, k: nat)
    requires x < |ps|
    ensures Climb(ps, x, k + 1).Some? ==> Climb(ps, x, k).Some?
    ensures Climb(ps, x, k).Some? ==> Climb(ps, x, k + 1) == ParentOf(ps, Climb(ps, x, k).value)
    decreases k
  {
    if k > 0 {
      match ParentOf(ps, x)
      case None =>
      case Some(p) => ClimbStep(ps, p, k - 1);
    } else {
      assert forall p: nat :: p < |ps| ==> Climb(ps, p, 0) == Some(p);
    }
  }

  lemma {:induction false} NodeCount(ps: seq<ProcessInfo>, node: Node, i: nat, d: nat, x: nat)
    requires DistinctPids(ps) && x < |ps| && Faithful(ps, node, i) && LeavesAfter(ps, i, d)
    ensures Count(node, ps[x].pid) == if Above(ps, i, x) then 1 else 0
    decreases node
  {
    var kids := Kids(ps, i);
    forall j | j in kids
      ensures LeavesAfter(ps, j, d + 1)
    {
      ParentIs(ps, i, j);
    }
    ListCount(ps, node.children, kids, d + 1, x);
    AboveThroughKid(ps, i, x);
    KidNotAbove(ps, i, d);
    assert ps[i].pid == ps[x].pid <==> i == x;
  }

  lemma KidNotAbove(ps: seq<ProcessInfo>, i: nat, d: nat)
    requires DistinctPids(ps) && i < |ps| && LeavesAfter(ps, i, d)
    ensures forall j :: j in Kids(ps, i) ==> !Above(ps, j, i)
  {
    if j :| j in Kids(ps, i) && Above(ps, j, i) {
      var k: nat :| Climb(ps, i, k) == Some(j);
      ParentIs(ps, i, j);
      ClimbStep(ps, i, k);
      NoTurns(ps, i, k + 1, d);
    }
  }

  lemma {:induction false} ListCount(ps: seq<ProcessInfo>, nodes: seq<Node>, at: seq<nat>, d: nat, x: nat)
    requires DistinctPids(ps) && x < |ps| && |nodes| == |at| && Distinct(at)
    requires forall k :: 0 <= k < |at| ==> Faithful(ps, nodes[k], at[k])
    requires forall j :: j in at ==> j < |ps| && LeavesAfter(ps, j, d)
    ensures CountAll(nodes, ps[x].pid) == if AnyAbove(ps, at, x) then 1 else 0
    decreases nodes
  {
    if nodes != [] {
      NodeCount(ps, nodes[0], at[0], d, x);
      ListCount(ps, nodes[1..], at[1..], d, x);
      FirstOrRest(ps, at, d, x);
    }
  }

  lemma FirstOrRest(ps: seq<ProcessInfo>, at: seq<nat>, d: nat, x: nat)
    requires x < |ps| && at != [] && Distinct(at) && forall j :: j in at ==> j < |ps| && LeavesAfter(ps, j, d)
    ensures AnyAbove(ps, at, x) <==> Above(ps, at[0], x) || AnyAbove(ps, at[1..], x)
    ensures !(Above(ps, at[0], x) && AnyAbove(ps, at[1..], x))
  {
    assert at[0] in at && at == [at[0]] + at[1..];
    if j :| j in at[1..] && Above(ps, j, x) && Above(ps, at[0], x) {
      OneAbove(ps, at[0], j, d, x);
    }
  }

  ghost predicate AnyAbove(ps: seq<ProcessInfo>, at: seq<nat>, x: nat)
    requires x < |ps|
  {
    exists j :: j in at && Above(ps, j, x)
  }

  /** The forest holds exactly the processes whose chain leaves the list, each once. */
  lemma ForestExact(ps: seq<ProcessInfo>, forest: seq<Node>, x: nat)
    requires DistinctPids(ps) && x < |ps| && FaithfulForest(ps, forest)
    ensures CountAll(forest, ps[x].pid) == if Rooted(ps, x) then 1 else 0
  {
    var roots := Roots(ps, |ps|);
    ListCount(ps, forest, roots, 0, x);
    if j :| j in roots && Above(ps, j, x) {
      var k: nat :| Climb(ps, x, k) == Some(j);
      ClimbLeaves(ps, x, k, 0);
    }
    if d: nat :| LeavesAfter(ps, x, d) {
      ClimbToRoot(ps, x, d);
      assert Climb(ps, x, d).value in roots && Above(ps, Climb(ps, x, d).value, x);
    }
  }

  // ---------------------------------------------------------------------------
  // The program
  // ---------------------------------------------------------------------------

  /** Every node hangs under the node its parent pid names. */
  predicate Linked(node: Node)
    decreases node
  {
    forall k :: 0 <= k < |node.children| ==> node.children[k].info.ppid == node.info.pid && Linked(node.children[k])
  }

  /** The child lists by parent pid. */
  ghost predicate Indexed(ps: seq<ProcessInfo>, childrenOf: map<int, seq<nat>>, n: nat)
    requires n <= |ps|
  {
    forall pid :: IndexOf(ps, pid).Some? ==> Looked(childrenOf, pid) == WithParent(ps, pid, n)
  }

  function Looked(childrenOf: map<int, seq<nat>>, pid: int): seq<nat> {
    if pid in childrenOf then childrenOf[pid] else []
  }

  /** With every visited process its parent was visited. */
  ghost predicate Closed(ps: seq<ProcessInfo>, seen: set<nat>) {
    forall y :: y in seen ==> y < |ps| && (ParentOf(ps, y).Some? ==> ParentOf(ps, y).value in seen)
  }

  /** What is new was reached from `index`. */
  ghost predicate ReachedFrom(ps: seq<ProcessInfo>, index: nat, seen: set<nat>, seen': set<nat>) {
    forall y :: y in seen' && y !in seen ==>
      y == index || (y < |ps| && ParentOf(ps, y).Some? && ParentOf(ps, y).value in seen'
          && ParentOf(ps, y).value !in seen)
  }

  /** `index` is about to be visited for the first time, after its parent. */
  ghost predicate Due(ps: seq<ProcessInfo>, index: nat, seen: set<nat>) {
    && DistinctPids(ps) && index < |ps| && index !in seen && Closed(ps, seen)
    && (ParentOf(ps, index).Some? ==> ParentOf(ps, index).value in seen)
  }

  method Unseen(indices: seq<nat>, seen: set<nat>) returns (r: seq<nat>)
    ensures forall j :: j in r ==> j in indices && j !in seen
    ensures (forall j :: j in indices ==> j !in seen) ==> r == indices
  {
    r := [];
    var i := 0;
    while i < |indices|
      invariant 0 <= i <= |indices|
      invariant forall j :: j in r ==> j in indices && j !in seen
      invariant (forall j :: j in indices ==> j !in seen) ==> r == indices[..i]
    {
      if indices[i] !in seen {
        r := r + [indices[i]];
      }
      assert indices[..i + 1] == indices[..i] + [indices[i]];
      i := i + 1;
    }
    assert indices[..i] == indices;
  }

  /** Nothing is filtered out below a process visited for the first time. */
  lemma KidsUnseen(ps: seq<ProcessInfo>, index: nat, seen: set<nat>)
    requires Due(ps, index, seen)
    ensures forall j :: j in Kids(ps, index) ==> j !in seen + {index} && Due(ps, j, seen + {index})
  {
    forall j | j in Kids(ps, index)
      ensures j !in seen + {index} && Due(ps, j, seen + {index})
    {
      ParentIs(ps, index, j);
    }
  }

  /** Visiting one child leaves its later siblings unvisited. */
  lemma SiblingStaysDue(ps: seq<ProcessInfo>, c: nat, e: nat, seen: set<nat>, seen': set<nat>)
    requires Due(ps, e, seen) && seen <= seen' && ReachedFrom(ps, c, seen, seen') && Closed(ps, seen') && e != c
    ensures Due(ps, e, seen')
  {
  }

  lemma ReachedFurther(ps: seq<ProcessInfo>, index: nat, c: nat, s0: set<nat>, s1: set<nat>, s2: set<nat>)
    requires index in s1 && index !in s0 && s0 <= s1 <= s2 && c < |ps| && ParentOf(ps, c) == Some(index)
    requires ReachedFrom(ps, index, s0, s1) && ReachedFrom(ps, c, s1, s2)
    ensures ReachedFrom(ps, index, s0, s2)
  {
  }

  lemma ActiveFits(active: set<nat>, n: nat)
    requires forall x :: x in active ==> x < n
    ensures |active| <= n
  {
    assert Range(n) == active + (Range(n) - active);
  }

  /** What the children built so far are. */
  ghost predicate Built(ps: seq<ProcessInfo>, children: seq<Node>, indices: seq<nat>) {
    |children| <= |indices| && forall m :: 0 <= m < |children| ==> Faithful(ps, children[m], indices[m])
  }

  ghost predicate LinkedUnder(children: seq<Node>, pid: int) {
    forall m :: 0 <= m < |children| ==> children[m].info.ppid == pid && Linked(children[m])
  }

  /** The children built so far are right and the rest are still to be visited for the first time. */
  ghost predicate Going(ps: seq<ProcessInfo>, children: seq<Node>, indices: seq<nat>, seen: set<nat>) {
    && Built(ps, children, indices) && Closed(ps, seen)
    && forall m :: |children| <= m < |indices| ==> Due(ps, indices[m], seen)
  }

  lemma NextBuilt(ps: seq<ProcessInfo>, children: seq<Node>, indices: seq<nat>, seen: set<nat>, child: Node,
                  seen': set<nat>)
    requires Going(ps, children, indices, seen) && |children| < |indices| && Distinct(indices) && seen <= seen'
    requires var c := indices[|children|];
             Faithful(ps, child, c) && Closed(ps, seen') && ReachedFrom(ps, c, seen, seen')
    ensures Going(ps, children + [child], indices, seen')
  {
    forall m | |children| < m < |indices|
      ensures Due(ps, indices[m], seen')
    {
      SiblingStaysDue(ps, indices[|children|], indices[m], seen, seen');
    }
  }

  /** The `seen` set cuts cycles off; no call is for a process already on the active path, so the
      recursion ends on every list. */
  method BuildNode(index: nat, ps: seq<ProcessInfo>, childrenOf: map<int, seq<nat>>, seen: set<nat>,
                   ghost active: set<nat>)
    returns (node: Node, seen': set<nat>)
    requires index < |ps| && Indexed(ps, childrenOf, |ps|)
    requires active <= seen && index !in active && forall x :: x in active ==> x < |ps|
    ensures seen + {index} <= seen'
    ensures node.info == ps[index] && Linked(node)
    ensures Due(ps, index, seen) ==>
              Faithful(ps, node, index) && Closed(ps, seen') && ReachedFrom(ps, index, seen, seen')
    decreases |ps| - |active|, 1
  {
    ActiveFits(active + {index}, |ps|);
    KidsLooked(ps, childrenOf, index);
    var indices := Unseen(Looked(childrenOf, ps[index].pid), seen + {index});
    if Due(ps, index, seen) {
      KidsUnseen(ps, index, seen);
      KidsGoing(ps, index, seen);
    }
    var children;
    children, seen' := BuildChildren(index, indices, ps, childrenOf, seen, active);
    node := Node(ps[index], children);
    LinkedNode(node);
    if Due(ps, index, seen) {
      FaithfulNode(ps, node, index);
    }
  }

  lemma KidsLooked(ps: seq<ProcessInfo>, childrenOf: map<int, seq<nat>>, index: nat)
    requires index < |ps| && Indexed(ps, childrenOf, |ps|)
    ensures Looked(childrenOf, ps[index].pid) == Kids(ps, index)
  {
    assert IndexOf(ps, ps[index].pid).Some?;
  }

  lemma KidsGoing(ps: seq<ProcessInfo>, index: nat, seen: set<nat>)
    requires Due(ps, index, seen)
    ensures Distinct(Kids(ps, index)) && Going(ps, [], Kids(ps, index), seen + {index})
  {
    KidsUnseen(ps, index, seen);
    var kids := Kids(ps, index);
    forall m | 0 <= m < |kids|
      ensures Due(ps, kids[m], seen + {index})
    {
      assert kids[m] in kids;
    }
  }

  lemma LinkedNode(node: Node)
    requires LinkedUnder(node.children, node.info.pid)
    ensures Linked(node)
  {
  }

  lemma FaithfulNode(ps: seq<ProcessInfo>, node: Node, index: nat)
    requires index < |ps| && node.info == ps[index]
    requires |node.children| == |Kids(ps, index)| && Built(ps, node.children, Kids(ps, index))
    ensures Faithful(ps, node, index)
  {
  }

  method BuildChildren(index: nat, indices: seq<nat>, ps: seq<ProcessInfo>, childrenOf: map<int, seq<nat>>,
                       seen: set<nat>, ghost active: set<nat>)
    returns (children: seq<Node>, seen': set<nat>)
    requires index < |ps| && Indexed(ps, childrenOf, |ps|)
    requires active <= seen && index !in active && |active| < |ps| && forall x :: x in active ==> x < |ps|
    requires forall j :: j in indices ==> j < |ps| && ps[j].ppid == ps[index].pid && j !in seen + {index}
    ensures seen + {index} <= seen' && |children| == |indices|
    ensures LinkedUnder(children, ps[index].pid)
    ensures Due(ps, index, seen) && Distinct(indices) && Going(ps, [], indices, seen + {index}) ==>
              Built(ps, children, indices) && Closed(ps, seen') && ReachedFrom(ps, index, seen, seen')
    decreases |ps| - |active|, 0
  {
    ghost var due := Due(ps, index, seen) && Distinct(indices) && Going(ps, [], indices, seen + {index});
    ghost var pid := ps[index].pid;
    seen' := seen + {index};
    children := [];
    while |children| < |indices|
      invariant |children| <= |indices| && seen + {index} <= seen'
      invariant LinkedUnder(children, pid)
      invariant due ==> Going(ps, children, indices, seen') && ReachedFrom(ps, index, seen, seen')
    {
      var c := indices[|children|];
      assert c in indices;
      ghost var was := seen';
      var child;
      child, seen' := BuildNode(c, ps, childrenOf, seen', active + {index});
      if due {
        ParentIs(ps, index, c);
        ReachedFurther(ps, index, c, seen, was, seen');
        NextBuilt(ps, children, indices, was, child, seen');
      }
      children := children + [child];
    }
  }

  lemma PidsListed(ps: seq<ProcessInfo>, pids: set<int>, i: nat)
    requires i < |ps| && pids == set p | p in ps :: p.pid
    ensures ps[i].ppid in pids <==> ParentOf(ps, i).Some?
  {
    var ppid := ps[i].ppid;
    if ppid in pids {
      var p :| p in ps && p.pid == ppid;
    }
    if ParentOf(ps, i).Some? {
      assert ps[ParentOf(ps, i).value] in ps;
    }
  }

  lemma LinkStep(ps: seq<ProcessInfo>, childrenOf: map<int, seq<nat>>, i: nat)
    requires i < |ps| && Indexed(ps, childrenOf, i)
    ensures var ppid := ps[i].ppid;
            Indexed(ps, if ParentOf(ps, i).Some? then childrenOf[ppid := Looked(childrenOf, ppid) + [i]]
                else childrenOf, i + 1)
  {
  }

  ghost predicate LinkedUpTo(ps: seq<ProcessInfo>, childrenOf: map<int, seq<nat>>, roots: seq<nat>, i: nat) {
    i <= |ps| && Indexed(ps, childrenOf, i) && roots == Roots(ps, i)
  }

  method LinkOne(ps: seq<ProcessInfo>, pids: set<int>, childrenOf: map<int, seq<nat>>, roots: seq<nat>, i: nat)
    returns (childrenOf': map<int, seq<nat>>, roots': seq<nat>)
    requires i < |ps| && LinkedUpTo(ps, childrenOf, roots, i)
    requires ps[i].ppid in pids <==> ParentOf(ps, i).Some?
    ensures LinkedUpTo(ps, childrenOf', roots', i + 1)
  {
    var ppid := ps[i].ppid;
    LinkStep(ps, childrenOf, i);
    childrenOf', roots' := childrenOf, roots;
    if ppid in pids {
      childrenOf' := childrenOf[ppid := Looked(childrenOf, ppid) + [i]];
    } else {
      roots' := roots + [i];
    }
  }

  /** Sorts the processes into roots and child lists. */
  method LinkChildren(ps: seq<ProcessInfo>) returns (childrenOf: map<int, seq<nat>>, roots: seq<nat>)
    ensures LinkedUpTo(ps, childrenOf, roots, |ps|)
  {
    var pids := set p | p in ps :: p.pid;
    childrenOf, roots := map[], [];
    var i := 0;
    while i < |ps|
      invariant 0 <= i <= |ps| && LinkedUpTo(ps, childrenOf, roots, i)
    {
      PidsListed(ps, pids, i);
      childrenOf, roots := LinkOne(ps, pids, childrenOf, roots, i);
      i := i + 1;
    }
  }

  lemma RootsGoing(ps: seq<ProcessInfo>)
    requires DistinctPids(ps)
    ensures Distinct(Roots(ps, |ps|)) && Going(ps, [], Roots(ps, |ps|), {})
  {
    var roots := Roots(ps, |ps|);
    forall m | 0 <= m < |roots|
      ensures Due(ps, roots[m], {})
    {
      assert roots[m] in roots;
    }
  }

  method BuildProcessForest(ps: seq<ProcessInfo>) returns (forest: seq<Node>)
    ensures |forest| == |Roots(ps, |ps|)|
    ensures forall k :: 0 <= k < |forest| ==> forest[k].info == ps[Roots(ps, |ps|)[k]] && Linked(forest[k])
    ensures DistinctPids(ps) ==> FaithfulForest(ps, forest)
  {
    var childrenOf, roots := LinkChildren(ps);
    if DistinctPids(ps) {
      RootsGoing(ps);
    }
    var seen: set<nat> := {};
    forest := [];
    while |forest| < |roots|
      invariant |forest| <= |roots|
      invariant forall k :: 0 <= k < |forest| ==> forest[k].info == ps[roots[k]] && Linked(forest[k])
      invariant DistinctPids(ps) ==> Going(ps, forest, roots, seen)
    {
      ghost var was := seen;
      var node;
      node, seen := BuildNode(roots[|forest|], ps, childrenOf, seen, {});
      if DistinctPids(ps) {
        NextBuilt(ps, forest, roots, was, node, seen);
      }
      forest := forest + [node];
    }
  }
}
