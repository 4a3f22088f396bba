/**
The breadth-first listing of a directory. A view gives what `stat` and `readdir` answer at each
location; links are already followed or not by the time an answer is given, so the walk is stated
in terms of the kind reported.
 */
module Listing {
  import opened Core
  import opened Paths
  import opened Kernel

  datatype Kind = AsSymlink | AsDirectory | AsFile

  /** `stat`'s kind and size, and `readdir`'s answer, `None` when it fails. */
  datatype Info = Info(kind: Kind, size: nat, names: Option<seq<string>>)

  /** A location missing from the view is one `stat` fails on. */
  type View = map<Path, Info>

  datatype Options = Options(maxDepth: Option<nat>, exclude: set<string>)

  datatype DirEntry = DirEntry(path: string, kind: Kind, size: nat)

  predicate IsDots(name: string) {
    name == "." || name == ".."
  }

  /** `readdir` names each entry once. */
  ghost predicate ValidView(v: View) {
    forall p :: p in v && v[p].names.Some? ==> ValidNames(v[p].names.value)
  }

  ghost predicate ValidNames(names: seq<string>) {
    Distinct(names) && forall n :: n in names ==> IsDots(n) || IsName(n)
  }

  // ---------------------------------------------------------------------------
  // What a listing should hold
  // ---------------------------------------------------------------------------

  /** `name` is an entry of `p` that is not excluded. */
  predicate HasEntry(v: View, o: Options, p: Path, name: string) {
    && p in v && v[p].names.Some? && name in v[p].names.value
    && !IsDots(name) && name !in o.exclude
  }

  predicate IsDir(v: View, p: Path) {
    p in v && v[p].kind.AsDirectory?
  }

  /** `q` is reached from `root` by entries that are not excluded, through directories only, and
      not deeper than asked for. */
  ghost predicate Listed(v: View, root: Path, o: Options, q: Path) {
    && root < q
    && (o.maxDepth.Some? ==> |q| - |root| <= o.maxDepth.value + 1)
    && (forall k :: |root| <= k < |q| ==> HasEntry(v, o, q[..k], q[k]))
    && (forall k :: |root| < k < |q| ==> IsDir(v, q[..k]))
  }

  /** The directories whose entries the listing asks for. */
  ghost predicate Expanded(v: View, root: Path, o: Options, d: Path) {
    d == root || (Listed(v, root, o, d) && IsDir(v, d) && (o.maxDepth.Some? ==> |d| - |root| <= o.maxDepth.value))
  }

  ghost predicate Readable(v: View, o: Options, d: Path) {
    && d in v && v[d].names.Some?
    && forall name :: HasEntry(v, o, d, name) ==> d + [name] in v
  }

  ghost predicate AllReadable(v: View, root: Path, o: Options) {
    forall d :: Expanded(v, root, o, d) ==> Readable(v, o, d)
  }

  lemma ListedChild(v: View, root: Path, o: Options, d: Path, name: string)
    requires Expanded(v, root, o, d) && HasEntry(v, o, d, name)
    ensures Listed(v, root, o, d + [name])
  {
    var q := d + [name];
    assert forall k :: 0 <= k < |d| ==> q[..k] == d[..k] && q[k] == d[k];
    assert q[..|d|] == d && root <= d && root < q;
  }

  lemma ListedParent(v: View, root: Path, o: Options, q: Path)
    requires Listed(v, root, o, q)
    ensures Expanded(v, root, o, Parent(q)) && HasEntry(v, o, Parent(q), q[|q| - 1])
  {
    var d := Parent(q);
    assert forall k :: 0 <= k < |d| ==> q[..k] == d[..k] && q[k] == d[k];
    assert q[..|d|] == d;
    if |d| == |root| {
      assert d == root;
    }
  }

  // ---------------------------------------------------------------------------
  // The walk
  // ---------------------------------------------------------------------------

  /** `q`'s turn has come: its directory is among the first `h`, or is the next one and `q`'s name is
      in `done`. */
  ghost predicate Covered(dirs: seq<Path>, h: nat, done: set<string>, q: Path) {
    q != [] && h <= |dirs| && (Parent(q) in dirs[..h] || (h < |dirs| && Parent(q) == dirs[h] && q[|q| - 1] in done))
  }

  ghost predicate Deepening(s: seq<Path>) {
    forall i, j :: 0 <= i < j < |s| ==> |s[i]| <= |s[j]|
  }

  ghost predicate DirsOk(v: View, root: Path, o: Options, dirs: seq<Path>, h: nat) {
    && 0 < |dirs| && dirs[0] == root && h <= |dirs|
    && Distinct(dirs) && Deepening(dirs)
    && (forall d :: d in dirs ==> Expanded(v, root, o, d))
    && (forall d :: d in dirs[..h] ==> d in v && v[d].names.Some?)
  }

  ghost predicate LocsOk(v: View, root: Path, o: Options, dirs: seq<Path>, h: nat, done: set<string>, locs: seq<Path>) {
    && Distinct(locs) && Deepening(locs)
    && (forall q :: q in locs ==> q in v && Listed(v, root, o, q) && Covered(dirs, h, done, q))
    && (forall q :: Listed(v, root, o, q) && Covered(dirs, h, done, q) ==> q in locs)
  }

  /** Every listed directory is queued, and nothing else but the root is. */
  ghost predicate Linked(v: View, root: Path, o: Options, dirs: seq<Path>, locs: seq<Path>) {
    && (forall q :: q in locs && Expanded(v, root, o, q) ==> q in dirs)
    && (forall d :: d in dirs ==> d == root || d in locs)
  }

  ghost predicate Inv(v: View, root: Path, o: Options, dirs: seq<Path>, h: nat, done: set<string>, locs: seq<Path>) {
    DirsOk(v, root, o, dirs, h) && LocsOk(v, root, o, dirs, h, done, locs) && Linked(v, root, o, dirs, locs)
  }

  lemma Start(v: View, root: Path, o: Options)
    ensures Inv(v, root, o, [root], 0, {}, [])
  {
  }

  /** What the walk has covered lies at most one level below the current directory. */
  lemma CoveredDepth(dirs: seq<Path>, h: nat, done: set<string>, q: Path)
    requires h < |dirs| && Deepening(dirs) && Covered(dirs, h, done, q)
    ensures |q| <= |dirs[h]| + 1
  {
    if Parent(q) in dirs[..h] {
      var i :| 0 <= i < h && dirs[i] == Parent(q);
    }
  }

  /** A name that is skipped covers nothing new. */
  lemma Skip(v: View, root: Path, o: Options, dirs: seq<Path>, h: nat, done: set<string>, locs: seq<Path>, name: string)
    requires Inv(v, root, o, dirs, h, done, locs) && h < |dirs| && !HasEntry(v, o, dirs[h], name)
    ensures Inv(v, root, o, dirs, h, done + {name}, locs)
  {
    forall q | Listed(v, root, o, q) && Covered(dirs, h, done + {name}, q)
      ensures q in locs
    {
      ListedParent(v, root, o, q);
    }
  }

  lemma SnocDistinct(s: seq<Path>, x: Path)
    requires Distinct(s) && x !in s
    ensures Distinct(s + [x])
  {
  }

  lemma SnocDeepening(s: seq<Path>, x: Path)
    requires Deepening(s) && (forall y :: y in s ==> |y| <= |x|)
    ensures Deepening(s + [x])
  {
    forall i, j | 0 <= i < j < |s + [x]|
      ensures |(s + [x])[i]| <= |(s + [x])[j]|
    {
      if j == |s| {
        assert s[i] in s;
      }
    }
  }

  /** An entry is new when its turn comes. */
  lemma Fresh(v: View, root: Path, o: Options, dirs: seq<Path>, h: nat, done: set<string>, locs: seq<Path>,
              name: string)
    requires Inv(v, root, o, dirs, h, done, locs) && h < |dirs| && name !in done
    ensures dirs[h] + [name] !in locs && dirs[h] + [name] !in dirs
  {
    var q := dirs[h] + [name];
    assert Parent(q) == dirs[h];
    assert dirs[h] !in dirs[..h];
    assert dirs[h] in dirs && root <= dirs[h];
    assert q != root;
  }

  lemma RecordLocs(v: View, root: Path, o: Options, dirs: seq<Path>, h: nat, done: set<string>, locs: seq<Path>,
                   name: string)
    requires Inv(v, root, o, dirs, h, done, locs) && h < |dirs| && name !in done
    requires HasEntry(v, o, dirs[h], name) && dirs[h] + [name] in v
    ensures LocsOk(v, root, o, dirs, h, done + {name}, locs + [dirs[h] + [name]])
  {
    var d := dirs[h];
    var q := d + [name];
    assert Parent(q) == d;
    ListedChild(v, root, o, d, name);
    Fresh(v, root, o, dirs, h, done, locs, name);
    forall x | x in locs
      ensures |x| <= |q|
    {
      CoveredDepth(dirs, h, done, x);
    }
    SnocDistinct(locs, q);
    SnocDeepening(locs, q);
    forall x | Listed(v, root, o, x) && Covered(dirs, h, done + {name}, x)
      ensures x in locs + [q]
    {
      if !Covered(dirs, h, done, x) {
        assert x == Parent(x) + [x[|x| - 1]];
      }
    }
  }

  /** An entry whose own entries will not be asked for is only recorded. */
  lemma RecordLeaf(v: View, root: Path, o: Options, dirs: seq<Path>, h: nat, done: set<string>, locs: seq<Path>,
                   name: string)
    requires Inv(v, root, o, dirs, h, done, locs) && h < |dirs| && name !in done
    requires HasEntry(v, o, dirs[h], name) && dirs[h] + [name] in v && !Expanded(v, root, o, dirs[h] + [name])
    ensures Inv(v, root, o, dirs, h, done + {name}, locs + [dirs[h] + [name]])
  {
    RecordLocs(v, root, o, dirs, h, done, locs, name);
  }

  /** Queueing a directory covers nothing new. */
  lemma CoveredStays(dirs: seq<Path>, h: nat, done: set<string>, q: Path, x: Path)
    requires h < |dirs|
    ensures Covered(dirs + [q], h, done, x) <==> Covered(dirs, h, done, x)
  {
    assert (dirs + [q])[..h] == dirs[..h];
  }

  lemma QueueDirs(v: View, root: Path, o: Options, dirs: seq<Path>, h: nat, q: Path)
    requires DirsOk(v, root, o, dirs, h) && h < |dirs| && q !in dirs && Expanded(v, root, o, q)
    requires forall d :: d in dirs ==> |d| <= |q|
    ensures DirsOk(v, root, o, dirs + [q], h)
  {
    SnocDistinct(dirs, q);
    SnocDeepening(dirs, q);
    assert (dirs + [q])[..h] == dirs[..h];
  }

  lemma QueueLocs(v: View, root: Path, o: Options, dirs: seq<Path>, h: nat, done: set<string>, locs: seq<Path>, q: Path)
    requires LocsOk(v, root, o, dirs, h, done, locs) && h < |dirs|
    ensures LocsOk(v, root, o, dirs + [q], h, done, locs)
  {
    forall x
      ensures Covered(dirs + [q], h, done, x) <==> Covered(dirs, h, done, x)
    {
      CoveredStays(dirs, h, done, q, x);
    }
  }

  lemma NoneDeeper(v: View, root: Path, o: Options, dirs: seq<Path>, h: nat, done: set<string>, locs: seq<Path>)
    requires Inv(v, root, o, dirs, h, done, locs) && h < |dirs|
    ensures forall d :: d in dirs ==> |d| <= |dirs[h]| + 1
  {
    forall d | d in dirs
      ensures |d| <= |dirs[h]| + 1
    {
      if d == root {
        assert dirs[h] in dirs && root <= dirs[h];
      } else {
        CoveredDepth(dirs, h, done, d);
      }
    }
  }

  /** A directory within the depth asked for is recorded and queued. */
  lemma RecordDirectory(v: View, root: Path, o: Options, dirs: seq<Path>, h: nat, done: set<string>, locs: seq<Path>,
                        name: string)
    requires Inv(v, root, o, dirs, h, done, locs) && h < |dirs| && name !in done
    requires HasEntry(v, o, dirs[h], name) && dirs[h] + [name] in v && Expanded(v, root, o, dirs[h] + [name])
    ensures Inv(v, root, o, dirs + [dirs[h] + [name]], h, done + {name}, locs + [dirs[h] + [name]])
  {
    var q := dirs[h] + [name];
    RecordLocs(v, root, o, dirs, h, done, locs, name);
    Fresh(v, root, o, dirs, h, done, locs, name);
    NoneDeeper(v, root, o, dirs, h, done, locs);
    QueueDirs(v, root, o, dirs, h, q);
    QueueLocs(v, root, o, dirs, h, done + {name}, locs + [q], q);
  }

  /** Once all its names are done, a directory is behind the walk. */
  lemma NextDirectory(v: View, root: Path, o: Options, dirs: seq<Path>, h: nat, done: set<string>, locs: seq<Path>)
    requires Inv(v, root, o, dirs, h, done, locs) && h < |dirs|
    requires dirs[h] in v && v[dirs[h]].names.Some? && done == Elements(v[dirs[h]].names.value)
    ensures Inv(v, root, o, dirs, h + 1, {}, locs)
  {
    assert dirs[..h + 1] == dirs[..h] + [dirs[h]];
    forall q | Listed(v, root, o, q)
      ensures Covered(dirs, h + 1, {}, q) <==> Covered(dirs, h, done, q)
    {
      ListedParent(v, root, o, q);
    }
  }

  /** At the end every directory the listing should ask for was asked. */
  lemma {:induction false} AllVisited(v: View, root: Path, o: Options, dirs: seq<Path>, locs: seq<Path>, d: Path)
    requires Inv(v, root, o, dirs, |dirs|, {}, locs) && Expanded(v, root, o, d)
    ensures d in dirs
    decreases |d|
  {
    if d != root {
      ListedParent(v, root, o, d);
      AllVisited(v, root, o, dirs, locs, Parent(d));
      assert dirs[..|dirs|] == dirs;
    }
  }

  lemma Finished(v: View, root: Path, o: Options, dirs: seq<Path>, locs: seq<Path>)
    requires Inv(v, root, o, dirs, |dirs|, {}, locs)
    ensures forall q :: q in locs <==> Listed(v, root, o, q)
    ensures AllReadable(v, root, o)
  {
    assert dirs[..|dirs|] == dirs;
    forall q | Listed(v, root, o, q)
      ensures q in locs
    {
      ListedParent(v, root, o, q);
      AllVisited(v, root, o, dirs, locs, Parent(q));
    }
    forall d | Expanded(v, root, o, d)
      ensures Readable(v, o, d)
    {
      AllVisited(v, root, o, dirs, locs, d);
      forall name | HasEntry(v, o, d, name)
        ensures d + [name] in v
      {
        ListedChild(v, root, o, d, name);
      }
    }
  }

  // ---------------------------------------------------------------------------
  // The program
  // ---------------------------------------------------------------------------

  /** The path string of what lies `names` below the path `base`. */
  function Extend(base: string, names: seq<string>): string {
    if names == [] then base else JoinChild(Extend(base, names[..|names| - 1]), names[|names| - 1])
  }

  /** `path` is the string for `q` in a listing of `base`. */
  ghost predicate Spells(base: string, root: Path, path: string, q: Path) {
    Leads(path, q) && root <= q && path == Extend(base, q[|root|..])
  }

  lemma SpellsChild(base: string, root: Path, dir: string, d: Path, name: string)
    requires Spells(base, root, dir, d) && IsName(name)
    ensures Spells(base, root, JoinChild(dir, name), d + [name])
  {
    JoinChildLeads(dir, d, name);
    var below := (d + [name])[|root|..];
    assert below[..|below| - 1] == d[|root|..] && below[|below| - 1] == name;
  }

  /** Below a path without a trailing slash, the strings are the plain absolute paths. */
  lemma {:induction false} ExtendIsPathOf(root: Path, names: Path)
    requires AllNames(root) && AllNames(names)
    ensures Extend(PathOf(root), names) == PathOf(root + names)
  {
    if names == [] {
      assert root + names == root;
    } else {
      var front, last := names[..|names| - 1], names[|names| - 1];
      ExtendIsPathOf(root, front);
      JoinChildOf(root + front, last);
      assert root + front + [last] == root + names;
    }
  }

  ghost predicate QueuedAt(item: (string, nat), base: string, root: Path, d: Path) {
    Spells(base, root, item.0, d) && item.1 == |d| - |root|
  }

  /** The queue holds the directories from `h` on. */
  ghost predicate Queues(queue: seq<(string, nat)>, base: string, root: Path, dirs: seq<Path>, h: nat) {
    h + |queue| == |dirs| && forall i :: 0 <= i < |queue| ==> QueuedAt(queue[i], base, root, dirs[h + i])
  }

  ghost predicate EntryAt(v: View, base: string, root: Path, e: DirEntry, q: Path) {
    Spells(base, root, e.path, q) && q in v && e.kind == v[q].kind && e.size == v[q].size
  }

  ghost predicate Reports(v: View, base: string, root: Path, results: seq<DirEntry>, locs: seq<Path>) {
    |results| == |locs| && forall i :: 0 <= i < |locs| ==> EntryAt(v, base, root, results[i], locs[i])
  }

  /** Whether a directory at this depth is expanded. */
  predicate Deeper(o: Options, depth: nat) {
    o.maxDepth.None? || depth < o.maxDepth.value
  }

  lemma DeeperExpands(v: View, root: Path, o: Options, d: Path, name: string)
    requires Expanded(v, root, o, d) && HasEntry(v, o, d, name) && d + [name] in v
    ensures |root| <= |d|
    ensures Expanded(v, root, o, d + [name]) <==> IsDir(v, d + [name]) && Deeper(o, |d| - |root|)
  {
    ListedChild(v, root, o, d, name);
  }

  method Readdir(v: View, path: string) returns (r: Option<seq<string>>)
    ensures var p := KernelPath(path); r == if p in v then v[p].names else None
  {
    var p := KernelPath(path);
    r := if p in v then v[p].names else None;
  }

  method Stat(v: View, path: string) returns (r: Option<(Kind, nat)>)
    ensures var p := KernelPath(path); r == if p in v then Some((v[p].kind, v[p].size)) else None
  {
    var p := KernelPath(path);
    r := if p in v then Some((v[p].kind, v[p].size)) else None;
  }

  lemma ReportsSnoc(v: View, base: string, root: Path, results: seq<DirEntry>, locs: seq<Path>, e: DirEntry, q: Path)
    requires Reports(v, base, root, results, locs) && EntryAt(v, base, root, e, q)
    ensures Reports(v, base, root, results + [e], locs + [q])
  {
  }

  lemma QueuesSnoc(queue: seq<(string, nat)>, base: string, root: Path, dirs: seq<Path>, h: nat, path: string, q: Path)
    requires Queues(queue, base, root, dirs, h) && Spells(base, root, path, q)
    ensures Queues(queue + [(path, |q| - |root|)], base, root, dirs + [q], h)
  {
    var queue', dirs' := queue + [(path, |q| - |root|)], dirs + [q];
    forall i | 0 <= i < |queue'|
      ensures QueuedAt(queue'[i], base, root, dirs'[h + i])
    {
      if i < |queue| {
        assert QueuedAt(queue[i], base, root, dirs[h + i]);
      }
    }
  }

  /** The state of the program in the middle of directory `h`. */
  ghost predicate At(v: View, base: string, root: Path, o: Options, dirs: seq<Path>, h: nat, done: set<string>,
                     locs: seq<Path>, queue: seq<(string, nat)>, results: seq<DirEntry>) {
    && Inv(v, root, o, dirs, h, done, locs) && h < |dirs|
    && Queues(queue, base, root, dirs, h + 1) && Reports(v, base, root, results, locs)
  }

  lemma RecordedDirectory(v: View, base: string, root: Path, o: Options, dirs: seq<Path>, h: nat, done: set<string>,
                          locs: seq<Path>, queue: seq<(string, nat)>, results: seq<DirEntry>, name: string,
                          full: string)
    requires At(v, base, root, o, dirs, h, done, locs, queue, results) && name !in done && HasEntry(v, o, dirs[h], name)
    requires dirs[h] + [name] in v && Spells(base, root, full, dirs[h] + [name])
    requires Expanded(v, root, o, dirs[h] + [name])
    ensures var q := dirs[h] + [name];
            At(v, base, root, o, dirs + [q], h, done + {name}, locs + [q],
               queue + [(full, |q| - |root|)], results + [DirEntry(full, v[q].kind, v[q].size)])
  {
    var q := dirs[h] + [name];
    ReportsSnoc(v, base, root, results, locs, DirEntry(full, v[q].kind, v[q].size), q);
    RecordDirectory(v, root, o, dirs, h, done, locs, name);
    QueuesSnoc(queue, base, root, dirs, h + 1, full, q);
  }

  lemma RecordedLeaf(v: View, base: string, root: Path, o: Options, dirs: seq<Path>, h: nat, done: set<string>,
                     locs: seq<Path>, queue: seq<(string, nat)>, results: seq<DirEntry>, name: string, full: string)
    requires At(v, base, root, o, dirs, h, done, locs, queue, results) && name !in done && HasEntry(v, o, dirs[h], name)
    requires dirs[h] + [name] in v && Spells(base, root, full, dirs[h] + [name])
    requires !Expanded(v, root, o, dirs[h] + [name])
    ensures var q := dirs[h] + [name];
            At(v, base, root, o, dirs, h, done + {name}, locs + [q], queue,
                results + [DirEntry(full, v[q].kind, v[q].size)])
  {
    var q := dirs[h] + [name];
    ReportsSnoc(v, base, root, results, locs, DirEntry(full, v[q].kind, v[q].size), q);
    RecordLeaf(v, root, o, dirs, h, done, locs, name);
  }

  lemma ExpandedNext(v: View, root: Path, o: Options, dirs: seq<Path>, h: nat, name: string)
    requires DirsOk(v, root, o, dirs, h) && h < |dirs| && HasEntry(v, o, dirs[h], name) && dirs[h] + [name] in v
    ensures |root| <= |dirs[h]|
    ensures Expanded(v, root, o, dirs[h] + [name]) <==> IsDir(v, dirs[h] + [name]) && Deeper(o, |dirs[h]| - |root|)
  {
    assert dirs[h] in dirs;
    DeeperExpands(v, root, o, dirs[h], name);
  }

  lemma Unreadable(v: View, root: Path, o: Options, dirs: seq<Path>, h: nat, name: string)
    requires DirsOk(v, root, o, dirs, h) && h < |dirs| && HasEntry(v, o, dirs[h], name) && dirs[h] + [name] !in v
    ensures !AllReadable(v, root, o)
  {
    assert dirs[h] in dirs && !Readable(v, o, dirs[h]);
  }

  method StatChild(v: View, dir: string, name: string, ghost base: string, ghost root: Path, ghost d: Path)
    returns (full: string, stat: Option<(Kind, nat)>)
    requires Spells(base, root, dir, d) && IsName(name)
    ensures Spells(base, root, full, d + [name])
    ensures stat == if d + [name] in v then Some((v[d + [name]].kind, v[d + [name]].size)) else None
  {
    full := JoinChild(dir, name);
    SpellsChild(base, root, dir, d, name);
    stat := Stat(v, full);
  }

  /** One name of the current directory: skipped, recorded, or recorded and queued. */
  method VisitEntry(v: View, o: Options, dir: string, depth: nat, name: string,
                    queue: seq<(string, nat)>, results: seq<DirEntry>,
                    ghost base: string, ghost root: Path, ghost dirs: seq<Path>, ghost h: nat,
                    ghost done: set<string>, ghost locs: seq<Path>)
    returns (ok: bool, queue': seq<(string, nat)>, results': seq<DirEntry>,
             ghost dirs': seq<Path>, ghost locs': seq<Path>)
    requires At(v, base, root, o, dirs, h, done, locs, queue, results) && Spells(base, root, dir, dirs[h])
             && depth == |dirs[h]| - |root|
    requires dirs[h] in v && v[dirs[h]].names.Some? && name in v[dirs[h]].names.value
    requires name !in done && (IsDots(name) || IsName(name))
    ensures ok ==> At(v, base, root, o, dirs', h, done + {name}, locs', queue', results') && dirs'[h] == dirs[h]
    ensures !ok ==> !AllReadable(v, root, o)
  {
    queue', results', dirs', locs' := queue, results, dirs, locs;
    if IsDots(name) || name in o.exclude {
      Skip(v, root, o, dirs, h, done, locs, name);
      return true, queue', results', dirs', locs';
    }
    ghost var q := dirs[h] + [name];
    var full, stat := StatChild(v, dir, name, base, root, dirs[h]);
    if stat.None? {
      Unreadable(v, root, o, dirs, h, name);
      return false, queue', results', dirs', locs';
    }
    ExpandedNext(v, root, o, dirs, h, name);
    results', locs' := results + [DirEntry(full, stat.value.0, stat.value.1)], locs + [q];
    if stat.value.0.AsDirectory? && Deeper(o, depth) {
      RecordedDirectory(v, base, root, o, dirs, h, done, locs, queue, results, name, full);
      queue', dirs' := queue + [(full, depth + 1)], dirs + [q];
    } else {
      RecordedLeaf(v, base, root, o, dirs, h, done, locs, queue, results, name, full);
    }
    ok := true;
  }

  lemma NextName(names: seq<string>, i: nat)
    requires ValidNames(names) && i < |names|
    ensures names[i] !in Elements(names[..i]) && (IsDots(names[i]) || IsName(names[i]))
    ensures Elements(names[..i + 1]) == Elements(names[..i]) + {names[i]}
  {
    assert names[i] in names;
    assert names[..i + 1] == names[..i] + [names[i]];
  }

  method VisitDirectory(v: View, o: Options, dir: string, depth: nat, queue: seq<(string, nat)>, results: seq<DirEntry>,
                        ghost base: string, ghost root: Path, ghost dirs: seq<Path>, ghost h: nat,
                        ghost locs: seq<Path>)
    returns (ok: bool, queue': seq<(string, nat)>, results': seq<DirEntry>,
             ghost dirs': seq<Path>, ghost locs': seq<Path>)
    requires ValidView(v)
    requires Inv(v, root, o, dirs, h, {}, locs) && h < |dirs| && Spells(base, root, dir, dirs[h])
             && depth == |dirs[h]| - |root|
    requires Queues(queue, base, root, dirs, h + 1) && Reports(v, base, root, results, locs)
    ensures ok ==> Inv(v, root, o, dirs', h + 1, {}, locs')
    ensures ok ==> Queues(queue', base, root, dirs', h + 1) && Reports(v, base, root, results', locs')
    ensures !ok ==> !AllReadable(v, root, o)
  {
    queue', results', dirs', locs' := queue, results, dirs, locs;
    ghost var d := dirs[h];
    assert d in dirs;
    var names := Readdir(v, dir);
    if names.None? {
      assert !Readable(v, o, d);
      return false, queue', results', dirs', locs';
    }
    ghost var done: set<string> := {};
    var i := 0;
    while i < |names.value|
      invariant 0 <= i <= |names.value| && done == Elements(names.value[..i])
      invariant At(v, base, root, o, dirs', h, done, locs', queue', results') && dirs'[h] == d
    {
      NextName(names.value, i);
      ok, queue', results', dirs', locs' :=
        VisitEntry(v, o, dir, depth, names.value[i], queue', results', base, root, dirs', h, done, locs');
      if !ok {
        return;
      }
      done := done + {names.value[i]};
      i := i + 1;
    }
    assert names.value[..i] == names.value;
    NextDirectory(v, root, o, dirs', h, done, locs');
    ok := true;
  }

  lemma {:induction false} DistinctFits(s: seq<Path>, keys: set<Path>)
    requires Distinct(s) && (forall x :: x in s ==> x in keys)
    ensures |s| <= |keys|
  {
    if s != [] {
      var last := s[|s| - 1];
      assert last in s;
      DistinctFits(s[..|s| - 1], keys - {last});
    }
  }

  /** The walk cannot visit more directories than the view has. */
  lemma WalkFits(v: View, root: Path, o: Options, dirs: seq<Path>, h: nat)
    requires DirsOk(v, root, o, dirs, h)
    ensures h <= |v|
  {
    DistinctFits(dirs[..h], v.Keys);
  }

  /** The listing holds exactly the listed locations. */
  ghost predicate Complete(v: View, base: string, root: Path, o: Options, entries: seq<DirEntry>) {
    && (forall i :: 0 <= i < |entries| ==> Listed(v, root, o, KernelPath(entries[i].path)))
    && (forall i :: 0 <= i < |entries| ==> EntryAt(v, base, root, entries[i], KernelPath(entries[i].path)))
    && (forall q :: Listed(v, root, o, q) ==> exists i :: 0 <= i < |entries| && KernelPath(entries[i].path) == q)
  }

  /** Each location once, the shallower ones first. */
  ghost predicate InOrder(entries: seq<DirEntry>) {
    forall i, j :: 0 <= i < j < |entries| ==>
      KernelPath(entries[i].path) != KernelPath(entries[j].path)
      && |KernelPath(entries[i].path)| <= |KernelPath(entries[j].path)|
  }

  lemma Concluded(v: View, base: string, root: Path, o: Options, dirs: seq<Path>, locs: seq<Path>,
                  results: seq<DirEntry>)
    requires Inv(v, root, o, dirs, |dirs|, {}, locs) && Reports(v, base, root, results, locs)
    ensures Complete(v, base, root, o, results) && InOrder(results) && AllReadable(v, root, o)
  {
    Finished(v, root, o, dirs, locs);
    assert forall i :: 0 <= i < |results| ==> EntryAt(v, base, root, results[i], locs[i]) && locs[i] in locs;
    forall q | Listed(v, root, o, q)
      ensures exists i :: 0 <= i < |results| && KernelPath(results[i].path) == q
    {
      var i :| 0 <= i < |locs| && locs[i] == q;
      assert KernelPath(results[i].path) == q;
    }
  }

  method WalkAll(v: View, path: string, o: Options, ghost root: Path) returns (r: Option<seq<DirEntry>>)
    requires ValidView(v) && Leads(path, root)
    ensures r.Some? <==> AllReadable(v, root, o)
    ensures r.Some? ==> Complete(v, path, root, o, r.value) && InOrder(r.value)
  {
    var results: seq<DirEntry> := [];
    var queue: seq<(string, nat)> := [(path, 0)];
    ghost var dirs, locs, h := [root], [], 0;
    Start(v, root, o);
    assert root[|root|..] == [];
    while queue != []
      invariant Inv(v, root, o, dirs, h, {}, locs)
      invariant Queues(queue, path, root, dirs, h) && Reports(v, path, root, results, locs)
      decreases |v| - h
    {
      var (dir, depth) := queue[0];
      assert QueuedAt(queue[0], path, root, dirs[h]);
      QueuesTail(queue, path, root, dirs, h);
      var ok;
      ok, queue, results, dirs, locs :=
        VisitDirectory(v, o, dir, depth, queue[1..], results, path, root, dirs, h, locs);
      if !ok {
        return None;
      }
      h := h + 1;
      WalkFits(v, root, o, dirs, h);
    }
    Concluded(v, path, root, o, dirs, locs, results);
    r := Some(results);
  }

  lemma QueuesTail(queue: seq<(string, nat)>, base: string, root: Path, dirs: seq<Path>, h: nat)
    requires Queues(queue, base, root, dirs, h) && queue != []
    ensures Queues(queue[1..], base, root, dirs, h + 1)
  {
    forall i | 0 <= i < |queue| - 1
      ensures QueuedAt(queue[1..][i], base, root, dirs[h + 1 + i])
    {
      assert QueuedAt(queue[i + 1], base, root, dirs[h + (i + 1)]);
    }
  }

  /** Lists a directory breadth first. It fails exactly when the path is refused or some call it
      has to make fails. */
  method ReaddirRecursive(v: View, path: string, o: Options) returns (r: Option<seq<DirEntry>>)
    requires ValidView(v)
    ensures r.Some? <==> AssertSafe(path).None? && AllReadable(v, KernelPath(path), o)
    ensures r.Some? ==> Complete(v, path, KernelPath(path), o, r.value) && InOrder(r.value)
  {
    if AssertSafe(path).Some? {
      return None;
    }
    SafeLeads(path);
    r := WalkAll(v, path, o, KernelPath(path));
  }

  // ---------------------------------------------------------------------------
  // On a tree of files and directories
  // ---------------------------------------------------------------------------

  /** The view shows a tree without links. */
  ghost predicate Shows(v: View, t: Tree) {
    && v.Keys == t.Keys
    && (forall p :: p in t ==> (v[p].kind.AsDirectory? <==> t[p].Directory?))
    && (forall p :: p in t ==> (v[p].names.Some? <==> t[p].Directory?))
    && (forall p :: p in t && v[p].names.Some? ==> Lists(v[p].names.value, Children(t, p)))
  }

  lemma EntryOfTree(v: View, t: Tree, o: Options, p: Path, name: string)
    requires ValidTree(t) && Shows(v, t) && o.exclude == {}
    ensures HasEntry(v, o, p, name) <==> p + [name] in t
  {
    var q := p + [name];
    assert q[..|p|] == p && Parent(q) == p;
    assert forall x :: x in t && |x| == |p| + 1 && p <= x ==> x == p + [x[|p|]];
    if q in t {
      assert NodeOk(t, q);
      assert IsName(q[|p|]);
      assert q[|p|] in Children(t, p);
    }
  }

  /** Listing everything below a directory of a tree gives exactly what lies below it. */
  lemma ListsTheTree(v: View, t: Tree, root: Path, q: Path)
    requires ValidTree(t) && Shows(v, t)
    ensures Listed(v, root, Options(None, {}), q) <==> root < q && q in t
  {
    var o := Options(None, {});
    if Listed(v, root, o, q) {
      EntryOfTree(v, t, o, q[..|q| - 1], q[|q| - 1]);
      assert q[..|q| - 1] + [q[|q| - 1]] == q;
    }
    if root < q && q in t {
      forall k | |root| <= k < |q|
        ensures HasEntry(v, o, q[..k], q[k]) && IsDir(v, q[..k])
      {
        PrefixesExist(t, q, k);
        PrefixesExist(t, q, k + 1);
        assert q[..k] + [q[k]] == q[..k + 1];
        EntryOfTree(v, t, o, q[..k], q[k]);
      }
    }
  }
}
