/**
The process list of the client: the kernel's snapshot with the pids of its own processes replaced
by their display pids, and the processes the snapshot does not show yet.
 */
module ProcessTable {
  import opened Core
  import opened ProcessForest

  const SYNTHETIC_PID_BASE := 1000000

  datatype SnapshotStatus = SnapRunning | SnapStopped | SnapExited

  datatype Snap = Snap(processId: string, pid: int, ppid: int, pgid: int, sid: int, driver: string, command: string,
                       args: seq<string>, cwd: string, status: SnapshotStatus, exitCode: Option<int>)

  /** A process of the registry, under its display pid. */
  datatype Tracked = Tracked(displayPid: int, processId: string, kernelPid: Option<int>, exitCode: Option<int>,
                             command: string, args: seq<string>)

  /** Display pids start at the base, kernel pids stay below it, and neither repeats. */
  ghost predicate ValidRegistry(registry: seq<Tracked>) {
    && (forall i :: 0 <= i < |registry| ==> registry[i].displayPid >= SYNTHETIC_PID_BASE)
    && (forall i, j :: 0 <= i < j < |registry| ==> registry[i].displayPid != registry[j].displayPid)
    && (forall i, j :: 0 <= i < j < |registry| && registry[i].kernelPid.Some? ==>
          registry[i].kernelPid != registry[j].kernelPid)
  }

  ghost predicate ValidSnapshot(snapshot: seq<Snap>) {
    && (forall i :: 0 <= i < |snapshot| ==>
        snapshot[i].pid < SYNTHETIC_PID_BASE && snapshot[i].ppid < SYNTHETIC_PID_BASE)
    && (forall i, j :: 0 <= i < j < |snapshot| ==> snapshot[i].pid != snapshot[j].pid)
  }

  // ---------------------------------------------------------------------------
  // Renaming
  // ---------------------------------------------------------------------------

  /** The display pid of a kernel pid; the last process of the registry to hold it wins. */
  function Rename(registry: seq<Tracked>, pid: int): int {
    if registry == [] then pid
    else
      var last := registry[|registry| - 1];
      if last.kernelPid == Some(pid) then last.displayPid else Rename(registry[..|registry| - 1], pid)
  }

  lemma {:induction false} RenameIs(registry: seq<Tracked>, pid: int)
    ensures var r := Rename(registry, pid);
            || (exists i :: 0 <= i < |registry| && registry[i].kernelPid == Some(pid) && r == registry[i].displayPid)
            || (r == pid && forall i :: 0 <= i < |registry| ==> registry[i].kernelPid != Some(pid))
  {
    if registry != [] && registry[|registry| - 1].kernelPid != Some(pid) {
      RenameIs(registry[..|registry| - 1], pid);
    }
  }

  /** Renaming kernel pids is injective. */
  lemma RenameInjective(registry: seq<Tracked>, a: int, b: int)
    requires ValidRegistry(registry) && a < SYNTHETIC_PID_BASE && b < SYNTHETIC_PID_BASE
    ensures Rename(registry, a) == Rename(registry, b) <==> a == b
  {
    RenameIs(registry, a);
    RenameIs(registry, b);
  }

  // ---------------------------------------------------------------------------
  // The rows
  // ---------------------------------------------------------------------------

  function TrackedBy(registry: seq<Tracked>, processId: string): Option<Tracked> {
    if registry == [] then None
    else
      var last := registry[|registry| - 1];
      if last.processId == processId then Some(last) else TrackedBy(registry[..|registry| - 1], processId)
  }

  function SnapStatus(s: SnapshotStatus): Status {
    if s.SnapExited? then Exited else Running
  }

  /** A row of the snapshot. */
  function SnapRow(registry: seq<Tracked>, e: Snap): ProcessInfo {
    var tracked := TrackedBy(registry, e.processId);
    var status := if tracked.None? then SnapStatus(e.status) else if tracked.value.exitCode.Some? then Exited
                  else Running;
    var exitCode := if tracked.Some? && tracked.value.exitCode.Some? then tracked.value.exitCode else e.exitCode;
    ProcessInfo(Rename(registry, e.pid), Rename(registry, e.ppid), Rename(registry, e.pgid), Rename(registry, e.sid),
                e.driver, if tracked.Some? then tracked.value.command else e.command,
                if tracked.Some? then tracked.value.args else e.args, e.cwd, status, exitCode)
  }

  /** The row of a process the snapshot does not show. */
  function TrackedRow(t: Tracked): ProcessInfo {
    ProcessInfo(t.displayPid, 0, t.displayPid, t.displayPid, "", t.command, t.args, "",
                if t.exitCode.Some? then Exited else Running, t.exitCode)
  }

  // What a row says, by what the registry and the snapshot say of the process.

  /** `r` stands for the pid `pid`: the display pid of the last process of the registry with that kernel
      pid, or `pid` itself if there is none. */
  ghost predicate StandsFor(registry: seq<Tracked>, pid: int, r: int) {
    if exists i :: 0 <= i < |registry| && registry[i].kernelPid == Some(pid)
    then exists i :: 0 <= i < |registry| && registry[i].kernelPid == Some(pid) && r == registry[i].displayPid
                     && forall j :: i < j < |registry| ==> registry[j].kernelPid != Some(pid)
    else r == pid
  }

  /** `t` is the process the registry last entered under `processId`. */
  ghost predicate LastEntered(registry: seq<Tracked>, processId: string, t: Tracked) {
    exists i :: 0 <= i < |registry| && registry[i] == t && t.processId == processId
                && forall j :: i < j < |registry| ==> registry[j].processId != processId
  }

  /** The process runs or has exited with a code, and this is its command line. */
  ghost predicate Reports(row: ProcessInfo, command: string, args: seq<string>, exited: bool, code: Option<int>) {
    row.command == command && row.args == args && (row.status.Exited? <==> exited) && row.exitCode == code
  }

  ghost predicate IsSnapRow(registry: seq<Tracked>, e: Snap, row: ProcessInfo) {
    && StandsFor(registry, e.pid, row.pid) && StandsFor(registry, e.ppid, row.ppid)
    && StandsFor(registry, e.pgid, row.pgid) && StandsFor(registry, e.sid, row.sid)
    && row.driver == e.driver && row.cwd == e.cwd
    && (forall t :: LastEntered(registry, e.processId, t) && t.exitCode.Some? ==>
          Reports(row, t.command, t.args, true, t.exitCode))
    && (forall t :: LastEntered(registry, e.processId, t) && t.exitCode.None? ==>
          Reports(row, t.command, t.args, false, e.exitCode))
    && ((forall t :: t in registry ==> t.processId != e.processId) ==>
          Reports(row, e.command, e.args, e.status.SnapExited?, e.exitCode))
  }

  ghost predicate IsOwnRow(t: Tracked, row: ProcessInfo) {
    && row.pid == row.pgid == row.sid == t.displayPid && row.ppid == 0 && row.driver == "" && row.cwd == ""
    && Reports(row, t.command, t.args, t.exitCode.Some?, t.exitCode)
  }

  lemma {:induction false} RenameStands(registry: seq<Tracked>, pid: int)
    ensures StandsFor(registry, pid, Rename(registry, pid))
  {
    if registry != [] {
      var front, last := registry[..|registry| - 1], registry[|registry| - 1];
      if last.kernelPid != Some(pid) {
        RenameStands(front, pid);
        assert forall i :: 0 <= i < |front| ==> front[i] == registry[i];
      } else {
        assert registry[|registry| - 1].kernelPid == Some(pid);
      }
    }
  }

  lemma {:induction false} TrackedIsLast(registry: seq<Tracked>, processId: string)
    ensures var t := TrackedBy(registry, processId);
            if t.Some? then LastEntered(registry, processId, t.value)
            else forall i :: 0 <= i < |registry| ==> registry[i].processId != processId
  {
    if registry != [] && registry[|registry| - 1].processId != processId {
      var front := registry[..|registry| - 1];
      TrackedIsLast(front, processId);
      assert forall i :: 0 <= i < |front| ==> front[i] == registry[i];
    } else if registry != [] {
      assert registry[|registry| - 1].processId == processId;
    }
  }

  lemma LastEnteredOnce(registry: seq<Tracked>, processId: string, a: Tracked, b: Tracked)
    requires LastEntered(registry, processId, a) && LastEntered(registry, processId, b)
    ensures a == b
  {
    var i :| 0 <= i < |registry| && registry[i] == a && a.processId == processId
             && forall j :: i < j < |registry| ==> registry[j].processId != processId;
    var k :| 0 <= k < |registry| && registry[k] == b && b.processId == processId
             && forall j :: k < j < |registry| ==> registry[j].processId != processId;
    assert i == k;
  }

  /** The row of a process of the snapshot says what it should. */
  lemma SnapRowIs(registry: seq<Tracked>, e: Snap)
    ensures IsSnapRow(registry, e, SnapRow(registry, e))
  {
    RenameStands(registry, e.pid);
    RenameStands(registry, e.ppid);
    RenameStands(registry, e.pgid);
    RenameStands(registry, e.sid);
    TrackedIsLast(registry, e.processId);
    var tracked := TrackedBy(registry, e.processId);
    forall t | LastEntered(registry, e.processId, t)
      ensures tracked == Some(t)
    {
      if tracked.Some? {
        LastEnteredOnce(registry, e.processId, t, tracked.value);
      }
    }
    if tracked.Some? {
      EnteredIsIn(registry, e.processId, tracked.value);
    }
  }

  lemma EnteredIsIn(registry: seq<Tracked>, processId: string, t: Tracked)
    requires LastEntered(registry, processId, t)
    ensures t in registry && t.processId == processId
  {
  }

  lemma {:induction false} StandsForOne(registry: seq<Tracked>, pid: int, a: int)
    requires StandsFor(registry, pid, a)
    ensures a == Rename(registry, pid)
  {
    RenameStands(registry, pid);
    if exists i :: 0 <= i < |registry| && registry[i].kernelPid == Some(pid) {
      var b := Rename(registry, pid);
      var i :| 0 <= i < |registry| && registry[i].kernelPid == Some(pid) && a == registry[i].displayPid
               && forall j :: i < j < |registry| ==> registry[j].kernelPid != Some(pid);
      var k :| 0 <= k < |registry| && registry[k].kernelPid == Some(pid) && b == registry[k].displayPid
               && forall j :: k < j < |registry| ==> registry[j].kernelPid != Some(pid);
      assert i == k;
    }
  }

  function SnapRows(registry: seq<Tracked>, snapshot: seq<Snap>): (r: seq<ProcessInfo>)
    ensures |r| == |snapshot| && forall i :: 0 <= i < |r| ==> r[i] == SnapRow(registry, snapshot[i])
  {
    seq(|snapshot|, i requires 0 <= i < |snapshot| => SnapRow(registry, snapshot[i]))
  }

  ghost predicate HasPid(rows: seq<ProcessInfo>, pid: int) {
    exists i :: 0 <= i < |rows| && rows[i].pid == pid
  }

  /** The rows of the first `n` processes of the registry not in `seen`. */
  function UnseenRows(registry: seq<Tracked>, seen: set<int>, n: nat): seq<ProcessInfo>
    requires n <= |registry|
  {
    if n == 0 then []
    else UnseenRows(registry, seen, n - 1) +
         (if registry[n - 1].displayPid in seen then [] else [TrackedRow(registry[n - 1])])
  }

  /** A row is that of a process of the registry, not in `seen`. */
  lemma {:induction false} UnseenRowFrom(registry: seq<Tracked>, seen: set<int>, n: nat, k: nat) returns (i: nat)
    requires n <= |registry| && k < |UnseenRows(registry, seen, n)|
    ensures i < n && UnseenRows(registry, seen, n)[k] == TrackedRow(registry[i]) && registry[i].displayPid !in seen
  {
    if n > 0 && k < |UnseenRows(registry, seen, n - 1)| {
      i := UnseenRowFrom(registry, seen, n - 1, k);
    } else {
      i := n - 1;
    }
  }

  lemma {:induction false} UnseenRowsDistinct(registry: seq<Tracked>, seen: set<int>, n: nat)
    requires ValidRegistry(registry) && n <= |registry|
    ensures DistinctPids(UnseenRows(registry, seen, n))
  {
    if n > 0 {
      UnseenRowsDistinct(registry, seen, n - 1);
      var before := UnseenRows(registry, seen, n - 1);
      forall k | 0 <= k < |before|
        ensures before[k].pid != registry[n - 1].displayPid
      {
        var i := UnseenRowFrom(registry, seen, n - 1, k);
      }
    }
  }

  lemma {:induction false} UnseenRowsAll(registry: seq<Tracked>, seen: set<int>, n: nat, i: nat)
    requires i < n <= |registry| && registry[i].displayPid !in seen
    ensures HasPid(UnseenRows(registry, seen, n), registry[i].displayPid)
  {
    var before, rows := UnseenRows(registry, seen, n - 1), UnseenRows(registry, seen, n);
    if i == n - 1 {
      assert rows[|before|].pid == registry[i].displayPid;
    } else {
      UnseenRowsAll(registry, seen, n - 1, i);
      var k :| 0 <= k < |before| && before[k].pid == registry[i].displayPid;
      assert rows[k].pid == registry[i].displayPid;
    }
  }

  // ---------------------------------------------------------------------------
  // Sorting
  // ---------------------------------------------------------------------------

  predicate Sorted(rows: seq<ProcessInfo>) {
    forall i, j :: 0 <= i < j < |rows| ==> rows[i].pid <= rows[j].pid
  }

  ghost predicate Ascending(rows: seq<ProcessInfo>) {
    forall i, j :: 0 <= i < j < |rows| ==> rows[i].pid < rows[j].pid
  }

  /** After everything not greater. */
  function Insert(rows: seq<ProcessInfo>, row: ProcessInfo): (r: seq<ProcessInfo>)
    requires Sorted(rows)
    ensures Sorted(r) && multiset(r) == multiset(rows) + multiset{row}
    ensures forall i :: 0 <= i < |r| ==> r[i] in rows || r[i] == row
  {
    if rows == [] || rows[|rows| - 1].pid <= row.pid then rows + [row]
    else
      assert rows == rows[..|rows| - 1] + [rows[|rows| - 1]];
      Insert(rows[..|rows| - 1], row) + [rows[|rows| - 1]]
  }

  method SortByPid(rows: seq<ProcessInfo>) returns (out: seq<ProcessInfo>)
    ensures Sorted(out) && multiset(out) == multiset(rows)
  {
    out := [];
    var i := 0;
    while i < |rows|
      invariant 0 <= i <= |rows| && Sorted(out) && multiset(out) == multiset(rows[..i])
    {
      out := Insert(out, rows[i]);
      assert rows[..i + 1] == rows[..i] + [rows[i]];
      i := i + 1;
    }
    assert rows[..i] == rows;
  }

  lemma {:induction false} OnceEach(rows: seq<ProcessInfo>, x: ProcessInfo)
    requires DistinctPids(rows)
    ensures multiset(rows)[x] <= 1
  {
    if rows != [] {
      var front, last := rows[..|rows| - 1], rows[|rows| - 1];
      assert rows == front + [last];
      OnceEach(front, x);
      assert last !in front;
    }
  }

  /** Sorting rows with distinct pids makes them strictly ascending. */
  lemma SortedDistinct(rows: seq<ProcessInfo>, out: seq<ProcessInfo>)
    requires DistinctPids(rows) && Sorted(out) && multiset(out) == multiset(rows)
    ensures Ascending(out) && forall x :: x in out <==> x in rows
  {
    assert forall x :: x in out <==> x in multiset(out);
    assert forall x :: x in rows <==> x in multiset(rows);
    forall i, j | 0 <= i < j < |out|
      ensures out[i].pid != out[j].pid
    {
      assert out[i] in rows && out[j] in rows;
      if out[i].pid == out[j].pid {
        OnceEach(rows, out[i]);
        TwiceIn(out, i, j);
      }
    }
  }

  lemma TwiceIn(out: seq<ProcessInfo>, i: nat, j: nat)
    requires i < j < |out| && out[i] == out[j]
    ensures multiset(out)[out[i]] >= 2
  {
    assert out == out[..j] + ([out[j]] + out[j + 1..]);
    assert out[i] in out[..j];
  }

  // ---------------------------------------------------------------------------
  // The program
  // ---------------------------------------------------------------------------

  ghost predicate Renames(display: map<int, int>, registry: seq<Tracked>) {
    forall pid :: Rename(registry, pid) == if pid in display then display[pid] else pid
  }

  ghost predicate Tracks(byId: map<string, Tracked>, registry: seq<Tracked>) {
    forall id :: TrackedBy(registry, id) == if id in byId then Some(byId[id]) else None
  }

  method ScanRegistry(registry: seq<Tracked>) returns (byId: map<string, Tracked>, display: map<int, int>)
    ensures Tracks(byId, registry) && Renames(display, registry)
  {
    byId, display := map[], map[];
    var i := 0;
    while i < |registry|
      invariant 0 <= i <= |registry|
      invariant Tracks(byId, registry[..i]) && Renames(display, registry[..i])
    {
      var t := registry[i];
      assert registry[..i + 1][..i] == registry[..i];
      if t.kernelPid.Some? {
        display := display[t.kernelPid.value := t.displayPid];
      }
      byId := byId[t.processId := t];
      i := i + 1;
    }
    assert registry[..i] == registry;
  }

  function Lookup(display: map<int, int>, pid: int): int {
    if pid in display then display[pid] else pid
  }

  method RowOf(e: Snap, byId: map<string, Tracked>, display: map<int, int>, ghost registry: seq<Tracked>)
    returns (row: ProcessInfo)
    requires Tracks(byId, registry) && Renames(display, registry)
    ensures row == SnapRow(registry, e)
  {
    var tracked := if e.processId in byId then Some(byId[e.processId]) else None;
    assert tracked == TrackedBy(registry, e.processId);
    var status, exitCode := SnapStatus(e.status), e.exitCode;
    var command, args := e.command, e.args;
    if tracked.Some? {
      status := Running;
      if tracked.value.exitCode.Some? {
        status, exitCode := Exited, tracked.value.exitCode;
      }
      command, args := tracked.value.command, tracked.value.args;
    }
    row := ProcessInfo(Lookup(display, e.pid), Lookup(display, e.ppid), Lookup(display, e.pgid), Lookup(display, e.sid),
                       e.driver, command, args, e.cwd, status, exitCode);
  }

  method SnapshotRows(registry: seq<Tracked>, snapshot: seq<Snap>) returns (rows: seq<ProcessInfo>, seen: set<int>)
    ensures rows == SnapRows(registry, snapshot) && forall p :: p in seen <==> HasPid(rows, p)
    ensures forall i :: 0 <= i < |rows| ==> IsSnapRow(registry, snapshot[i], rows[i])
  {
    rows, seen := CollectRows(registry, snapshot);
    forall i | 0 <= i < |rows|
      ensures IsSnapRow(registry, snapshot[i], rows[i])
    {
      SnapRowIs(registry, snapshot[i]);
    }
  }

  method CollectRows(registry: seq<Tracked>, snapshot: seq<Snap>) returns (rows: seq<ProcessInfo>, seen: set<int>)
    ensures rows == SnapRows(registry, snapshot) && forall p :: p in seen <==> HasPid(rows, p)
  {
    var byId, display := ScanRegistry(registry);
    rows, seen := [], {};
    var i := 0;
    while i < |snapshot|
      invariant 0 <= i == |rows| <= |snapshot|
      invariant forall k :: 0 <= k < i ==> rows[k] == SnapRow(registry, snapshot[k])
      invariant forall p :: p in seen <==> HasPid(rows, p)
    {
      var row := RowOf(snapshot[i], byId, display, registry);
      HasPidSnoc(rows, row);
      seen := seen + {row.pid};
      rows := rows + [row];
      i := i + 1;
    }
  }

  lemma HasPidSnoc(rows: seq<ProcessInfo>, row: ProcessInfo)
    ensures forall p :: HasPid(rows + [row], p) <==> HasPid(rows, p) || p == row.pid
  {
    forall p
      ensures HasPid(rows + [row], p) <==> HasPid(rows, p) || p == row.pid
    {
      if HasPid(rows, p) {
        var i :| 0 <= i < |rows| && rows[i].pid == p;
        assert (rows + [row])[i].pid == p;
      }
      assert (rows + [row])[|rows|] == row;
    }
  }

  /** The rows before sorting have distinct pids. */
  lemma RowsDistinct(registry: seq<Tracked>, snapshot: seq<Snap>, seen: set<int>)
    requires ValidRegistry(registry) && ValidSnapshot(snapshot)
    requires forall p :: p in seen <==> HasPid(SnapRows(registry, snapshot), p)
    ensures DistinctPids(SnapRows(registry, snapshot) + UnseenRows(registry, seen, |registry|))
  {
    var a, b := SnapRows(registry, snapshot), UnseenRows(registry, seen, |registry|);
    UnseenRowsDistinct(registry, seen, |registry|);
    forall i, j | 0 <= i < j < |a|
      ensures a[i].pid != a[j].pid
    {
      RenameInjective(registry, snapshot[i].pid, snapshot[j].pid);
    }
    forall i, k | 0 <= i < |a| && 0 <= k < |b|
      ensures a[i].pid != b[k].pid
    {
      assert HasPid(a, a[i].pid);
      var j := UnseenRowFrom(registry, seen, |registry|, k);
    }
  }

  ghost predicate IsTable(registry: seq<Tracked>, snapshot: seq<Snap>, out: seq<ProcessInfo>) {
    && Ascending(out)
    && (forall e :: e in snapshot ==> exists row :: row in out && IsSnapRow(registry, e, row))
    && (forall t :: t in registry ==> HasPid(out, t.displayPid))
    && (forall t :: t in registry && !Shown(snapshot, t) ==> exists row :: row in out && IsOwnRow(t, row))
    && (forall row :: row in out ==>
          (exists e :: e in snapshot && IsSnapRow(registry, e, row))
          || (exists t :: t in registry && !Shown(snapshot, t) && IsOwnRow(t, row)))
  }

  /** The snapshot shows the kernel process of `t`. */
  ghost predicate Shown(snapshot: seq<Snap>, t: Tracked) {
    exists i :: 0 <= i < |snapshot| && t.kernelPid == Some(snapshot[i].pid)
  }

  /** A display pid comes up in the snapshot rows exactly when the process is shown. */
  lemma SeenIffShown(registry: seq<Tracked>, snapshot: seq<Snap>, i: nat)
    requires ValidRegistry(registry) && ValidSnapshot(snapshot) && i < |registry|
    ensures HasPid(SnapRows(registry, snapshot), registry[i].displayPid) <==> Shown(snapshot, registry[i])
  {
    var rows, t := SnapRows(registry, snapshot), registry[i];
    if HasPid(rows, t.displayPid) {
      var k :| 0 <= k < |rows| && rows[k].pid == t.displayPid;
      RenameIs(registry, snapshot[k].pid);
    }
    if k :| 0 <= k < |snapshot| && t.kernelPid == Some(snapshot[k].pid) {
      RenameIs(registry, snapshot[k].pid);
      assert rows[k].pid == t.displayPid;
    }
  }

  /** The rows before sorting are the right ones. */
  lemma RowsComplete(registry: seq<Tracked>, snapshot: seq<Snap>, seen: set<int>, out: seq<ProcessInfo>)
    requires ValidRegistry(registry) && ValidSnapshot(snapshot)
    requires forall p :: p in seen <==> HasPid(SnapRows(registry, snapshot), p)
    requires var rows := SnapRows(registry, snapshot) + UnseenRows(registry, seen, |registry|);
             Sorted(out) && multiset(out) == multiset(rows)
    ensures IsTable(registry, snapshot, out)
  {
    var a, b := SnapRows(registry, snapshot), UnseenRows(registry, seen, |registry|);
    RowsDistinct(registry, snapshot, seen);
    SortedDistinct(a + b, out);
    forall e | e in snapshot
      ensures exists row :: row in out && IsSnapRow(registry, e, row)
    {
      var i :| 0 <= i < |snapshot| && snapshot[i] == e;
      assert a[i] in a + b;
      SnapRowIs(registry, e);
    }
    forall t | t in registry
      ensures HasPid(out, t.displayPid)
      ensures !Shown(snapshot, t) ==> exists row :: row in out && IsOwnRow(t, row)
    {
      var i :| 0 <= i < |registry| && registry[i] == t;
      TrackedIn(registry, snapshot, seen, out, i);
      assert IsOwnRow(t, TrackedRow(t));
    }
    forall row | row in out
      ensures (exists e :: e in snapshot && IsSnapRow(registry, e, row))
              || (exists t :: t in registry && !Shown(snapshot, t) && IsOwnRow(t, row))
    {
      RowOrigin(registry, snapshot, seen, row);
    }
  }

  lemma RowOrigin(registry: seq<Tracked>, snapshot: seq<Snap>, seen: set<int>, row: ProcessInfo)
    requires ValidRegistry(registry) && ValidSnapshot(snapshot)
    requires forall p :: p in seen <==> HasPid(SnapRows(registry, snapshot), p)
    requires row in SnapRows(registry, snapshot) + UnseenRows(registry, seen, |registry|)
    ensures (exists e :: e in snapshot && IsSnapRow(registry, e, row))
            || (exists t :: t in registry && !Shown(snapshot, t) && IsOwnRow(t, row))
  {
    var a, b := SnapRows(registry, snapshot), UnseenRows(registry, seen, |registry|);
    if row in a {
      var i :| 0 <= i < |a| && a[i] == row;
      assert snapshot[i] in snapshot;
      SnapRowIs(registry, snapshot[i]);
    } else {
      assert row in b;
      var k :| 0 <= k < |b| && b[k] == row;
      var i := UnseenRowFrom(registry, seen, |registry|, k);
      SeenIffShown(registry, snapshot, i);
      assert registry[i] in registry && IsOwnRow(registry[i], row);
    }
  }

  lemma TrackedIn(registry: seq<Tracked>, snapshot: seq<Snap>, seen: set<int>, out: seq<ProcessInfo>, i: nat)
    requires ValidRegistry(registry) && ValidSnapshot(snapshot) && i < |registry|
    requires forall p :: p in seen <==> HasPid(SnapRows(registry, snapshot), p)
    requires forall x :: x in out <==> x in SnapRows(registry, snapshot) + UnseenRows(registry, seen, |registry|)
    ensures HasPid(out, registry[i].displayPid)
    ensures !Shown(snapshot, registry[i]) ==> TrackedRow(registry[i]) in out
  {
    var a, b, t := SnapRows(registry, snapshot), UnseenRows(registry, seen, |registry|), registry[i];
    SeenIffShown(registry, snapshot, i);
    var row: ProcessInfo;
    if t.displayPid in seen {
      var k :| 0 <= k < |a| && a[k].pid == t.displayPid;
      row := a[k];
    } else {
      UnseenRowsAll(registry, seen, |registry|, i);
      var k :| 0 <= k < |b| && b[k].pid == t.displayPid;
      row := b[k];
      var j := UnseenRowFrom(registry, seen, |registry|, k);
      assert j == i;
    }
    assert row in a + b;
    var m :| 0 <= m < |out| && out[m] == row;
  }

  /** The second scan of the registry. */
  method OwnRows(registry: seq<Tracked>, seen: set<int>) returns (rows: seq<ProcessInfo>)
    ensures rows == UnseenRows(registry, seen, |registry|)
  {
    rows := [];
    var i := 0;
    while i < |registry|
      invariant 0 <= i <= |registry| && rows == UnseenRows(registry, seen, i)
    {
      var t := registry[i];
      if t.displayPid !in seen {
        rows := rows + [TrackedRow(t)];
      }
      i := i + 1;
    }
  }

  /** The whole list: snapshot rows under display pids, then what the snapshot does not show, sorted. */
  method AllProcesses(registry: seq<Tracked>, snapshot: seq<Snap>) returns (out: seq<ProcessInfo>)
    ensures Sorted(out)
    ensures ValidRegistry(registry) && ValidSnapshot(snapshot) ==> IsTable(registry, snapshot, out)
  {
    var rows, seen := SnapshotRows(registry, snapshot);
    var own := OwnRows(registry, seen);
    out := SortByPid(rows + own);
    if ValidRegistry(registry) && ValidSnapshot(snapshot) {
      RowsComplete(registry, snapshot, seen, out);
    }
  }

  /** Among the processes of the snapshot, parenthood is the same before and after renaming. */
  lemma ParentsPreserved(registry: seq<Tracked>, snapshot: seq<Snap>, a: nat, b: nat,
                        rowA: ProcessInfo, rowB: ProcessInfo)
    requires ValidRegistry(registry) && ValidSnapshot(snapshot) && a < |snapshot| && b < |snapshot|
    requires IsSnapRow(registry, snapshot[a], rowA) && IsSnapRow(registry, snapshot[b], rowB)
    ensures rowB.ppid == rowA.pid <==> snapshot[b].ppid == snapshot[a].pid
  {
    StandsForOne(registry, snapshot[b].ppid, rowB.ppid);
    StandsForOne(registry, snapshot[a].pid, rowA.pid);
    RenameInjective(registry, snapshot[b].ppid, snapshot[a].pid);
  }

  /** So is leadership of process groups and sessions. */
  lemma GroupsPreserved(registry: seq<Tracked>, snapshot: seq<Snap>, a: nat, b: nat,
                        rowA: ProcessInfo, rowB: ProcessInfo)
    requires ValidRegistry(registry) && ValidSnapshot(snapshot) && a < |snapshot| && b < |snapshot|
    requires snapshot[b].pgid < SYNTHETIC_PID_BASE && snapshot[b].sid < SYNTHETIC_PID_BASE
    requires IsSnapRow(registry, snapshot[a], rowA) && IsSnapRow(registry, snapshot[b], rowB)
    ensures rowB.pgid == rowA.pid <==> snapshot[b].pgid == snapshot[a].pid
    ensures rowB.sid == rowA.pid <==> snapshot[b].sid == snapshot[a].pid
  {
    StandsForOne(registry, snapshot[b].pgid, rowB.pgid);
    StandsForOne(registry, snapshot[b].sid, rowB.sid);
    StandsForOne(registry, snapshot[a].pid, rowA.pid);
    RenameInjective(registry, snapshot[b].pgid, snapshot[a].pid);
    RenameInjective(registry, snapshot[b].sid, snapshot[a].pid);
  }

  /** The forest is that of the process table, in which each process occurs once if its chain of
      parents leaves the table and not at all otherwise. */
  ghost predicate IsTree(registry: seq<Tracked>, snapshot: seq<Snap>, table: seq<ProcessInfo>, forest: seq<Node>) {
    && IsTable(registry, snapshot, table) && DistinctPids(table) && FaithfulForest(table, forest)
    && forall x :: 0 <= x < |table| ==> CountAll(forest, table[x].pid) == if Rooted(table, x) then 1 else 0
  }

  method ProcessTree(registry: seq<Tracked>, snapshot: seq<Snap>) returns (forest: seq<Node>)
    ensures ValidRegistry(registry) && ValidSnapshot(snapshot) ==>
              exists table :: IsTree(registry, snapshot, table, forest)
  {
    var processes := AllProcesses(registry, snapshot);
    forest := BuildProcessForest(processes);
    if ValidRegistry(registry) && ValidSnapshot(snapshot) {
      forall x | 0 <= x < |processes|
        ensures CountAll(forest, processes[x].pid) == if Rooted(processes, x) then 1 else 0
      {
        ForestExact(processes, forest, x);
      }
      assert IsTree(registry, snapshot, processes, forest);
    }
  }
}
