/**
The guest kernel's filesystem as the client sees it through its calls: a finite map from locations
to nodes. Any call may report an error, before or after it took effect.
 */
module Kernel {
  import opened Core
  import opened Paths

  type Path = seq<string>
  type Bytes = seq<bv8>

  datatype Meta = Meta(mode: int, uid: int, gid: int)

  datatype Node = File(content: Bytes, meta: Meta) | Directory(meta: Meta) | Symlink(target: string)

  type Tree = map<Path, Node>

  // The default modes and owner of new nodes: S_IFDIR | 0755, S_IFREG | 0644.
  const NEW_DIRECTORY := Directory(Meta(16877, 1000, 1000))
  const NEW_FILE_META := Meta(33188, 1000, 1000)

  function Parent(p: Path): Path {
    if p == [] then [] else p[..|p| - 1]
  }

  predicate IsDirectory(t: Tree, p: Path) {
    p in t && t[p].Directory?
  }

  /** Mode values carry file type bits and fit in sixteen bits. */
  predicate GoodNode(n: Node) {
    !n.Symlink? ==> 4096 <= n.meta.mode < 65536
  }

  /** A directory at the root, every other node inside a directory, names without slashes. */
  ghost predicate ValidTree(t: Tree) {
    IsDirectory(t, []) && forall p {:trigger NodeOk(t, p)} :: p in t ==> NodeOk(t, p)
  }

  ghost predicate NodeOk(t: Tree, p: Path) {
    p in t && AllNames(p) && GoodNode(t[p]) && (p != [] ==> IsDirectory(t, Parent(p)))
  }

  /** The locations at or below `p`. */
  function Under(t: Tree, p: Path): set<Path> {
    set q | q in t && p <= q
  }

  function Children(t: Tree, p: Path): set<string> {
    set q | q in t && |q| == |p| + 1 && p <= q :: q[|p|]
  }

  // ---------------------------------------------------------------------------
  // Following links
  // ---------------------------------------------------------------------------

  /** `MAX_SYMLINK_DEPTH` */
  const MAX_LINKS := 40

  /** The length of the first prefix of `p`, from `k` on, that is there and is no directory. */
  function FirstOther(t: Tree, p: Path, k: nat): (r: nat)
    requires k <= |p| + 1
    ensures k <= r <= |p| + 1
    ensures forall j :: k <= j < r && p[..j] in t ==> t[p[..j]].Directory?
    ensures r <= |p| ==> p[..r] in t && !t[p[..r]].Directory?
    decreases |p| + 1 - k
  {
    if k > |p| || (p[..k] in t && !t[p[..k]].Directory?) then k else FirstOther(t, p, k + 1)
  }

  /** Where a path leads, and after how many links. */
  datatype Place = Place(at: Path, links: nat)

  /** Goes down a path, starting over at the target of each link on the way, and of one at its end if
      asked to. There need not be anything where it leads. */
  function Resolve(t: Tree, p: Path, follow: bool, links: nat): Option<Place>
    decreases MAX_LINKS + 1 - links, p
  {
    if links > MAX_LINKS then None
    else
      var k := FirstOther(t, p, 0);
      if k > |p| then Some(Place(p, links))
      else
        match t[p[..k]]
        case Symlink(target) =>
          if k < |p| || follow then Resolve(t, Locate(Parent(p[..k]), target) + p[k..], follow, links + 1)
          else Some(Place(p, links))
        case _ => if k < |p| then None else Some(Place(p, links))
  }

  /** The directory a path leads to, links followed. */
  function DirectoryAt(t: Tree, p: Path): (r: Option<Path>)
    ensures r.Some? ==> IsDirectory(t, r.value)
  {
    match Resolve(t, p, true, 0)
    case None => None
    case Some(place) => if IsDirectory(t, place.at) then Some(place.at) else None
  }

  // ---------------------------------------------------------------------------
  // What the calls do, `None` standing for an error of the kernel's own
  // ---------------------------------------------------------------------------

  function MkdirEffect(t: Tree, p: Path): Option<Tree> {
    if p == [] then Some(t)
    else if !IsDirectory(t, Parent(p)) then None
    else if p in t then (if t[p].Directory? then Some(t) else None)
    else Some(t[p := NEW_DIRECTORY])
  }

  /** Every strict or full prefix of `p` that is missing becomes a new directory. */
  function WithDirectories(t: Tree, p: Path): Tree {
    if p == [] then t
    else
      var above := WithDirectories(t, Parent(p));
      if p in t then above else above[p := NEW_DIRECTORY]
  }

  predicate OnlyDirectoriesOn(t: Tree, p: Path) {
    forall k :: 0 <= k <= |p| && p[..k] in t ==> t[p[..k]].Directory?
  }

  function WriteEffect(t: Tree, p: Path, content: Bytes): Option<Tree> {
    if p == [] || !OnlyDirectoriesOn(t, Parent(p)) then None
    else if p !in t then Some(WithDirectories(t, Parent(p))[p := File(content, NEW_FILE_META)])
    else if t[p].File? then Some(t[p := t[p].(content := content)])
    else None
  }

  function ChmodMode(current: int, mode: int): int {
    (if mode / 4096 % 16 == 0 then current / 4096 % 16 else mode / 4096 % 16) * 4096 + mode % 4096
  }

  function ChmodEffect(t: Tree, p: Path, mode: int): Option<Tree> {
    if p !in t || t[p].Symlink? then None
    else Some(t[p := t[p].(meta := t[p].meta.(mode := ChmodMode(t[p].meta.mode, mode)))])
  }

  function ChownEffect(t: Tree, p: Path, uid: int, gid: int): Option<Tree> {
    if p !in t || t[p].Symlink? then None
    else Some(t[p := t[p].(meta := t[p].meta.(uid := uid, gid := gid))])
  }

  function SymlinkEffect(t: Tree, p: Path, target: string): Option<Tree> {
    if p == [] || p in t || !IsDirectory(t, Parent(p)) then None else Some(t[p := Symlink(target)])
  }

  function RemoveFileEffect(t: Tree, p: Path): Option<Tree> {
    if p !in t || t[p].Directory? then None else Some(t - {p})
  }

  function RemoveDirEffect(t: Tree, p: Path): Option<Tree> {
    if p == [] || !IsDirectory(t, p) || Children(t, p) != {} then None else Some(t - {p})
  }

  /** Removing what a path leads to, which may be a link but not through one at its end. */
  function UnlinkEffect(t: Tree, p: Path): Option<Tree> {
    match Resolve(t, p, false, 0)
    case None => None
    case Some(place) => RemoveFileEffect(t, place.at)
  }

  function RmdirEffect(t: Tree, p: Path): Option<Tree> {
    match Resolve(t, p, false, 0)
    case None => None
    case Some(place) => RemoveDirEffect(t, place.at)
  }

  /** Renaming something that is not a directory. */
  function RenameEffect(t: Tree, from: Path, to: Path): Option<Tree> {
    if from == [] || from !in t || to == [] then None
    else if from == to then Some(t)
    else if !IsDirectory(t, Parent(to)) || from <= to || t[from].Directory? then None
    else if to in t && t[to].Directory? && Children(t, to) != {} then None
    else Some((t - {from})[to := t[from]])
  }

  // ---------------------------------------------------------------------------
  // The kernel behind the transport
  // ---------------------------------------------------------------------------

  datatype Fault = NoFault | FailsBefore | FailsAfter

  datatype Stat = Stat(isDirectory: bool, isSymlink: bool, meta: Meta)

  function StatOf(n: Node): Stat {
    match n
    case File(_, meta) => Stat(false, false, meta)
    case Directory(meta) => Stat(true, false, meta)
    case Symlink(_) => Stat(false, true, Meta(0, 0, 0))
  }

  /** What there is at the end of a path, links followed. */
  function StatAt(t: Tree, p: Path): Option<Stat> {
    match Resolve(t, p, true, 0)
    case None => None
    case Some(place) => if place.at in t then Some(StatOf(t[place.at])) else None
  }

  /** What a changing call may leave behind. */
  ghost predicate Did(before: Tree, effect: Option<Tree>, ok: bool, after: Tree) {
    if ok then effect == Some(after) else after == before || effect == Some(after)
  }

  class Filesystem {
    var nodes: Tree
    var calls: nat
    const faults: nat -> Fault

    constructor (nodes: Tree, faults: nat -> Fault)
      ensures this.nodes == nodes && this.faults == faults
    {
      this.nodes, this.faults, calls := nodes, faults, 0;
    }

    /** No call ever fails but for the kernel's own reasons. */
    ghost predicate Reliable() {
      forall k :: faults(k).NoFault?
    }

    method Change(effect: Option<Tree>) returns (ok: bool)
      modifies this
      ensures Did(old(nodes), effect, ok, nodes)
      ensures Reliable() && effect.Some? ==> ok
    {
      var fault := faults(calls);
      calls := calls + 1;
      ok := effect.Some? && fault.NoFault?;
      if effect.Some? && !fault.FailsBefore? {
        nodes := effect.value;
      }
    }

    method Query<T>(answer: Option<T>) returns (r: Option<T>)
      modifies this`calls
      ensures r.Some? ==> r == answer
      ensures Reliable() ==> r == answer
    {
      var fault := faults(calls);
      calls := calls + 1;
      r := if fault.NoFault? then answer else None;
    }

    method Mkdir(path: string) returns (ok: bool)
      modifies this
      ensures Did(old(nodes), MkdirEffect(old(nodes), KernelPath(path)), ok, nodes)
      ensures Reliable() && MkdirEffect(old(nodes), KernelPath(path)).Some? ==> ok
    {
      ok := Change(MkdirEffect(nodes, KernelPath(path)));
    }

    method WriteFile(path: string, content: Bytes) returns (ok: bool)
      modifies this
      ensures Did(old(nodes), WriteEffect(old(nodes), KernelPath(path), content), ok, nodes)
      ensures Reliable() && WriteEffect(old(nodes), KernelPath(path), content).Some? ==> ok
    {
      ok := Change(WriteEffect(nodes, KernelPath(path), content));
    }

    method Chmod(path: string, mode: int) returns (ok: bool)
      modifies this
      ensures Did(old(nodes), ChmodEffect(old(nodes), KernelPath(path), mode), ok, nodes)
      ensures Reliable() && ChmodEffect(old(nodes), KernelPath(path), mode).Some? ==> ok
    {
      ok := Change(ChmodEffect(nodes, KernelPath(path), mode));
    }

    method Chown(path: string, uid: int, gid: int) returns (ok: bool)
      modifies this
      ensures Did(old(nodes), ChownEffect(old(nodes), KernelPath(path), uid, gid), ok, nodes)
      ensures Reliable() && ChownEffect(old(nodes), KernelPath(path), uid, gid).Some? ==> ok
    {
      ok := Change(ChownEffect(nodes, KernelPath(path), uid, gid));
    }

    method MakeSymlink(target: string, path: string) returns (ok: bool)
      modifies this
      ensures Did(old(nodes), SymlinkEffect(old(nodes), KernelPath(path), target), ok, nodes)
      ensures Reliable() && SymlinkEffect(old(nodes), KernelPath(path), target).Some? ==> ok
    {
      ok := Change(SymlinkEffect(nodes, KernelPath(path), target));
    }

    method RemoveFile(path: string) returns (ok: bool)
      modifies this
      ensures Did(old(nodes), UnlinkEffect(old(nodes), KernelPath(path)), ok, nodes)
      ensures Reliable() && UnlinkEffect(old(nodes), KernelPath(path)).Some? ==> ok
    {
      ok := Change(UnlinkEffect(nodes, KernelPath(path)));
    }

    method RemoveDir(path: string) returns (ok: bool)
      modifies this
      ensures Did(old(nodes), RmdirEffect(old(nodes), KernelPath(path)), ok, nodes)
      ensures Reliable() && RmdirEffect(old(nodes), KernelPath(path)).Some? ==> ok
    {
      ok := Change(RmdirEffect(nodes, KernelPath(path)));
    }

    method Rename(from: string, to: string) returns (ok: bool)
      modifies this
      ensures Did(old(nodes), RenameEffect(old(nodes), KernelPath(from), KernelPath(to)), ok, nodes)
      ensures Reliable() && RenameEffect(old(nodes), KernelPath(from), KernelPath(to)).Some? ==> ok
    {
      ok := Change(RenameEffect(nodes, KernelPath(from), KernelPath(to)));
    }

    /** The node at a path, links not followed. */
    method Lstat(path: string) returns (r: Option<Stat>)
      modifies this`calls
      ensures r.Some? ==> KernelPath(path) in nodes && r.value == StatOf(nodes[KernelPath(path)])
      ensures Reliable() && KernelPath(path) in nodes ==> r.Some?
    {
      var p := KernelPath(path);
      r := Query(if p in nodes then Some(StatOf(nodes[p])) else None);
    }

    /** The node a path leads to, links followed. */
    method StatPath(path: string) returns (r: Option<Stat>)
      modifies this`calls
      ensures r.Some? ==> r == StatAt(nodes, KernelPath(path))
      ensures Reliable() ==> r == StatAt(nodes, KernelPath(path))
    {
      r := Query(StatAt(nodes, KernelPath(path)));
    }

    method Exists(path: string) returns (r: Option<bool>)
      modifies this`calls
      ensures r.Some? ==> r.value == (KernelPath(path) in nodes)
      ensures Reliable() ==> r.Some?
    {
      r := Query(Some(KernelPath(path) in nodes));
    }

    method ReadFile(path: string) returns (r: Option<Bytes>)
      modifies this`calls
      ensures r.Some? ==> KernelPath(path) in nodes && nodes[KernelPath(path)].File?
                          && r.value == nodes[KernelPath(path)].content
      ensures Reliable() && KernelPath(path) in nodes && nodes[KernelPath(path)].File? ==> r.Some?
    {
      var p := KernelPath(path);
      r := Query(if p in nodes && nodes[p].File? then Some(nodes[p].content) else None);
    }

    method ReadLink(path: string) returns (r: Option<string>)
      modifies this`calls
      ensures r.Some? ==> KernelPath(path) in nodes && nodes[KernelPath(path)] == Symlink(r.value)
      ensures Reliable() && KernelPath(path) in nodes && nodes[KernelPath(path)].Symlink? ==> r.Some?
    {
      var p := KernelPath(path);
      r := Query(if p in nodes && nodes[p].Symlink? then Some(nodes[p].target) else None);
    }

    /** The entries of the directory a path leads to, each once, possibly along with `.` and `..`. */
    method ReadDir(path: string) returns (r: Option<seq<string>>)
      modifies this`calls
      ensures r.Some? ==> DirectoryAt(nodes, KernelPath(path)).Some?
                          && Lists(r.value, Children(nodes, DirectoryAt(nodes, KernelPath(path)).value))
      ensures Reliable() && DirectoryAt(nodes, KernelPath(path)).Some? ==> r.Some?
    {
      var directory := DirectoryAt(nodes, KernelPath(path));
      if directory.None? {
        return None;
      }
      var p := directory.value;
      var names: seq<string> := [".", ".."];
      var todo := Children(nodes, p) - {".", ".."};
      var children := Children(nodes, p);
      while todo != {}
        invariant todo <= children && "." !in todo && ".." !in todo
        invariant forall n :: n in names <==> n == "." || n == ".." || (n in children && n !in todo)
        invariant Distinct(names)
        decreases |todo|
      {
        var n :| n in todo;
        assert n !in names;
        names := names + [n];
        todo := todo - {n};
      }
      r := Query(Some(names));
    }
  }

  ghost predicate Lists(names: seq<string>, children: set<string>) {
    && Distinct(names)
    && forall n :: n != "." && n != ".." ==> (n in names <==> n in children)
  }

  // ---------------------------------------------------------------------------
  // Facts about trees
  // ---------------------------------------------------------------------------

  lemma {:induction false} PrefixesExist(t: Tree, p: Path, k: nat)
    requires ValidTree(t) && p in t && k <= |p|
    ensures p[..k] in t && (k < |p| ==> t[p[..k]].Directory?)
    decreases |p| - k
  {
    if k == |p| {
      assert p[..k] == p;
    } else {
      PrefixesExist(t, p, k + 1);
      assert NodeOk(t, p[..k + 1]);
      assert Parent(p[..k + 1]) == p[..k];
    }
  }

  lemma FirstOtherIs(t: Tree, p: Path, k: nat)
    requires ValidTree(t) && k <= |p| && p[..k] in t && !t[p[..k]].Directory?
    ensures FirstOther(t, p, 0) == k
  {
    var r := FirstOther(t, p, 0);
    if r < k {
      assert p[..k][..r] == p[..r];
      PrefixesExist(t, p[..k], r);
    }
  }

  lemma NoOther(t: Tree, p: Path)
    requires ValidTree(t) && IsDirectory(t, p)
    ensures FirstOther(t, p, 0) == |p| + 1
  {
    var r := FirstOther(t, p, 0);
    assert p[..|p|] == p;
    if r <= |p| {
      PrefixesExist(t, p, r);
    }
  }

  /** The location of a node leads to it. */
  lemma LeadsToItself(t: Tree, p: Path, links: nat)
    requires ValidTree(t) && p in t && links <= MAX_LINKS
    ensures Resolve(t, p, false, links) == Some(Place(p, links))
    ensures !t[p].Symlink? ==> Resolve(t, p, true, links) == Some(Place(p, links))
  {
    assert p[..|p|] == p;
    if t[p].Directory? {
      NoOther(t, p);
    } else {
      FirstOtherIs(t, p, |p|);
    }
  }

  /** `WithDirectories` adds the missing prefixes and changes nothing else. */
  lemma {:induction false} WithDirectoriesIs(t: Tree, p: Path)
    ensures var r := WithDirectories(t, p);
            && (forall q :: q in t ==> q in r && r[q] == t[q])
            && (forall q :: q in r && q !in t ==> q <= p && q != [] && r[q] == NEW_DIRECTORY)
            && (forall k :: 0 < k <= |p| ==> p[..k] in r)
  {
    if p != [] {
      WithDirectoriesIs(t, Parent(p));
      forall k | 0 < k <= |p|
        ensures p[..k] in WithDirectories(t, p)
      {
        if k < |p| {
          assert Parent(p)[..k] == p[..k];
        } else {
          assert p[..k] == p;
        }
      }
    }
  }

  /** Adding one child, or replacing a node by one of the same kind, keeps a tree valid. */
  lemma SetKeepsValid(t: Tree, p: Path, n: Node)
    requires ValidTree(t) && AllNames(p) && GoodNode(n)
    requires p != [] && IsDirectory(t, Parent(p))
    requires p in t && t[p].Directory? ==> n.Directory?
    ensures ValidTree(t[p := n])
  {
    var r := t[p := n];
    forall q | q in r
      ensures NodeOk(r, q)
    {
      if q != p {
        assert NodeOk(t, q);
      }
    }
  }

  lemma {:induction false} WithDirectoriesValid(t: Tree, p: Path)
    requires ValidTree(t) && AllNames(p) && OnlyDirectoriesOn(t, p)
    ensures ValidTree(WithDirectories(t, p)) && IsDirectory(WithDirectories(t, p), p)
  {
    if p != [] {
      assert forall k :: 0 <= k <= |Parent(p)| ==> Parent(p)[..k] == p[..k];
      WithDirectoriesValid(t, Parent(p));
      WithDirectoriesIs(t, Parent(p));
      assert p[..|p|] == p;
      if p !in t {
        SetKeepsValid(WithDirectories(t, Parent(p)), p, NEW_DIRECTORY);
      }
    }
  }

  /** A valid tree loses a node that nothing lies below. */
  lemma RemoveKeepsValid(t: Tree, p: Path)
    requires ValidTree(t) && p != [] && (forall q :: q in t && q != p ==> !(p <= q))
    ensures ValidTree(t - {p})
  {
    forall q | q in t - {p}
      ensures NodeOk(t - {p}, q)
    {
      assert NodeOk(t, q);
      assert q != [] ==> Parent(q) <= q;
    }
  }

  lemma ChmodRestores(current: int, mode: int)
    requires 4096 <= mode < 65536
    ensures ChmodMode(current, mode) == mode
  {
  }
}
