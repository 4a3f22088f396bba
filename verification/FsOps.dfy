/**
The client's filesystem algorithms over the kernel: creating directories, and copying, deleting and
moving whole trees, one kernel call at a time.
 */
module FsOps {
  import opened Core
  import opened Text
  import opened Paths
  import opened Kernel

  ghost predicate NoLinksOn(t: Tree, p: Path) {
    forall k :: 0 <= k <= |p| && p[..k] in t ==> !t[p[..k]].Symlink?
  }

  ghost predicate NoLinksUnder(t: Tree, p: Path) {
    forall q :: q in t && p <= q ==> !t[q].Symlink?
  }

  lemma NamesPath(names: seq<string>)
    requires AllNames(names)
    ensures KernelPath(PathOf(names)) == names
  {
    PathOfIsWellWritten(names);
    KernelPathOf(PathOf(names), names, false);
  }

  // ---------------------------------------------------------------------------
  // mkdirp
  // ---------------------------------------------------------------------------

  /** The non-empty parts of a path. */
  function NonEmpty(parts: seq<string>): seq<string> {
    if parts == [] then []
    else NonEmpty(parts[..|parts| - 1]) + (if parts[|parts| - 1] == "" then [] else [parts[|parts| - 1]])
  }

  lemma {:induction false} NonEmptyConcat(a: seq<string>, b: seq<string>)
    ensures NonEmpty(a + b) == NonEmpty(a) + NonEmpty(b)
    decreases |b|
  {
    if b == [] {
      assert a + b == a;
    } else {
      assert (a + b)[..|a + b| - 1] == a + b[..|b| - 1];
      NonEmptyConcat(a, b[..|b| - 1]);
    }
  }

  lemma {:induction false} NonEmptyNames(names: seq<string>)
    requires AllNames(names)
    ensures NonEmpty(names) == names
  {
    if names != [] {
      NonEmptyNames(names[..|names| - 1]);
    }
  }

  lemma PartsAreNames(path: string, names: seq<string>, trailing: bool)
    requires WellWritten(path, names, trailing)
    ensures NonEmpty(Split(path, SLASH)) == names
  {
    assert [""][..0] == [];
    if names == [] {
      assert Split("/", SLASH) == [""] + [""] by {
        assert "/"[1..] == [];
        assert Split([], SLASH) == [[]];
      }
      NonEmptyConcat([""], [""]);
    } else {
      assert Canonical(names, true);
      AssembledParts(names, true, trailing);
      NonEmptyConcat(Padding(true) + names, Padding(trailing));
      NonEmptyConcat(Padding(true), names);
      NonEmptyNames(names);
    }
  }

  /** What `mkdirp` has done after its first `k` parts. */
  ghost predicate MadeUpTo(t: Tree, t': Tree, p: Path, k: nat) {
    k <= |p| && t' == WithDirectories(t, p[..k]) && ValidTree(t')
  }

  lemma MkdirStep(t: Tree, p: Path, k: nat)
    requires ValidTree(t) && AllNames(p) && k < |p| && MadeUpTo(t, WithDirectories(t, p[..k]), p, k)
    ensures var t' := WithDirectories(t, p[..k]);
            && (p[..k + 1] in t' <==> p[..k + 1] in t)
            && (p[..k + 1] in t' ==> MadeUpTo(t, t', p, k + 1))
            && (p[..k + 1] !in t' && MkdirEffect(t', p[..k + 1]).Some? ==>
                  MadeUpTo(t, MkdirEffect(t', p[..k + 1]).value, p, k + 1))
  {
    var t' := WithDirectories(t, p[..k]);
    WithDirectoriesIs(t, p[..k]);
    assert Parent(p[..k + 1]) == p[..k];
    if p[..k + 1] !in t' && IsDirectory(t', p[..k]) {
      SetKeepsValid(t', p[..k + 1], NEW_DIRECTORY);
    }
  }

  lemma MkdirPossible(t: Tree, p: Path, k: nat)
    requires ValidTree(t) && AllNames(p) && k < |p|
    ensures OnlyDirectoriesOn(t, p) && p[..k + 1] !in t ==> MkdirEffect(WithDirectories(t, p[..k]), p[..k + 1]).Some?
  {
    if OnlyDirectoriesOn(t, p) && p[..k + 1] !in t {
      assert forall j :: 0 <= j <= k ==> p[..k][..j] == p[..j];
      WithDirectoriesValid(t, p[..k]);
      WithDirectoriesIs(t, p[..k]);
      assert Parent(p[..k + 1]) == p[..k];
    }
  }

  /** The writable guard passes only well-written paths. */
  lemma SafeNames(path: string) returns (trailing: bool)
    requires AssertSafe(path).None?
    ensures WellWritten(path, KernelPath(path), trailing)
  {
    SafeGuard(path);
    var names, t :| WellWritten(path, names, t);
    KernelPathOf(path, names, t);
    trailing := t;
  }

  /** One round of the loop: the directory at the next prefix is there or gets made. */
  method MkdirNext(fs: Filesystem, current: string, ghost before: Tree, ghost names: Path, ghost i: nat)
    returns (ok: bool)
    requires ValidTree(before) && AllNames(names) && i < |names| && current == PathOf(names[..i + 1])
    requires MadeUpTo(before, fs.nodes, names, i)
    modifies fs
    ensures MadeUpTo(before, fs.nodes, names, i) || MadeUpTo(before, fs.nodes, names, i + 1)
    ensures ok ==> MadeUpTo(before, fs.nodes, names, i + 1)
    ensures fs.Reliable() && OnlyDirectoriesOn(before, names) ==> ok
  {
    MkdirStep(before, names, i);
    MkdirPossible(before, names, i);
    ExtendPath(names, i);
    NamesPath(names[..i + 1]);
    var found := fs.Exists(current);
    if found.None? {
      return false;
    }
    ok := true;
    if !found.value {
      ok := fs.Mkdir(current);
    }
  }

  /** Creates the missing directories from the top down. Whatever happens, it has at most created a
      top part of them. */
  method Mkdirp(fs: Filesystem, path: string) returns (ok: bool)
    requires ValidTree(fs.nodes)
    modifies fs
    ensures AssertWritable(path).Some? ==> !ok && fs.nodes == old(fs.nodes)
    ensures exists k :: MadeUpTo(old(fs.nodes), fs.nodes, KernelPath(path), k)
    ensures ok ==> fs.nodes == WithDirectories(old(fs.nodes), KernelPath(path))
    ensures fs.Reliable() && AssertWritable(path).None? && OnlyDirectoriesOn(old(fs.nodes), KernelPath(path)) ==> ok
  {
    ghost var before, names := fs.nodes, KernelPath(path);
    assert names[..0] == [];
    assert MadeUpTo(before, fs.nodes, names, 0);
    if AssertWritable(path).Some? {
      return false;
    }
    ghost var trailing := SafeNames(path);
    PartsAreNames(path, names, trailing);
    ok := MkdirEach(fs, NonEmpty(Split(path, SLASH)));
  }

  method MkdirEach(fs: Filesystem, parts: seq<string>) returns (ok: bool)
    requires ValidTree(fs.nodes) && AllNames(parts)
    modifies fs
    ensures exists k :: MadeUpTo(old(fs.nodes), fs.nodes, parts, k)
    ensures ok ==> fs.nodes == WithDirectories(old(fs.nodes), parts)
    ensures fs.Reliable() && OnlyDirectoriesOn(old(fs.nodes), parts) ==> ok
  {
    ghost var before := fs.nodes;
    assert parts[..0] == [];
    var current := "";
    var i := 0;
    while i < |parts|
      invariant 0 <= i <= |parts|
      invariant current == Upto(parts, i)
      invariant MadeUpTo(before, fs.nodes, parts, i)
    {
      ExtendPath(parts, i);
      current := current + "/" + parts[i];
      ok := MkdirNext(fs, current, before, parts, i);
      if !ok {
        return;
      }
      i := i + 1;
    }
    assert parts[..i] == parts;
    ok := true;
  }

  /** The path of the first `i` names, as the loop builds it up. */
  function Upto(names: seq<string>, i: nat): string
    requires i <= |names|
  {
    if i == 0 then "" else PathOf(names[..i])
  }

  lemma ExtendPath(names: seq<string>, i: nat)
    requires AllNames(names) && i < |names|
    ensures Upto(names, i) + "/" + names[i] == Upto(names, i + 1) == PathOf(names[..i + 1])
    ensures AllNames(names[..i + 1])
  {
    assert names[..i + 1] == names[..i] + [names[i]];
    if i > 0 {
      JoinSnoc(names[..i], names[i], SLASH);
      assert "/" + (Join(names[..i], SLASH) + [SLASH] + names[i]) == "/" + Join(names[..i], SLASH) + "/" + names[i];
    }
  }

  // ---------------------------------------------------------------------------
  // copy_path
  // ---------------------------------------------------------------------------

  /** Where a location below `from` goes when `from` becomes `to`. */
  function Moved(q: Path, from: Path, to: Path): Path
    requires from <= q
  {
    to + q[|from|..]
  }

  lemma MovedBack(q: Path, from: Path, to: Path)
    requires from <= q
    ensures to <= Moved(q, from, to) && Moved(Moved(q, from, to), to, from) == q
  {
    assert Moved(q, from, to)[|to|..] == q[|from|..];
    assert from + q[|from|..] == q;
  }

  /** What a node becomes when it is copied to a place where there may be one already: a directory
      copied onto a file only gives that file its metadata. */
  function Placed(t: Tree, n: Node, m: Path): Node {
    if n.Directory? && m in t && t[m].File? then t[m].(meta := n.meta) else n
  }

  /** The nodes of `s`, all at or below `from`, placed at or below `to` instead. */
  function Relocated(t: Tree, s: set<Path>, from: Path, to: Path): (r: Tree)
    requires forall q :: q in s ==> q in t && from <= q
  {
    map p | p in (set q | q in s :: to + q[|from|..]) && to <= p && Moved(p, to, from) in t ::
      Placed(t, t[Moved(p, to, from)], p)
  }

  lemma RelocatedIs(t: Tree, s: set<Path>, from: Path, to: Path)
    requires forall q :: q in s ==> q in t && from <= q
    ensures var r := Relocated(t, s, from, to);
            && (forall q :: q in s ==>
                  Moved(q, from, to) in r && r[Moved(q, from, to)] == Placed(t, t[q], Moved(q, from, to)))
            && (forall p :: p in r ==> to <= p && Moved(p, to, from) in s)
  {
    forall q | q in s
      ensures Moved(q, from, to) in Relocated(t, s, from, to)
      ensures Relocated(t, s, from, to)[Moved(q, from, to)] == Placed(t, t[q], Moved(q, from, to))
    {
      MovedBack(q, from, to);
    }
    forall p | p in Relocated(t, s, from, to)
      ensures Moved(p, to, from) in s
    {
      var q :| q in s && p == to + q[|from|..];
      MovedBack(q, from, to);
    }
  }

  /** The tree after a complete copy. */
  function Copied(t: Tree, from: Path, to: Path): Tree {
    WithDirectories(t, Parent(to)) + Relocated(t, Under(t, from), from, to)
  }

  /** `p` is the place of a node of the source. */
  ghost predicate InImage(t: Tree, from: Path, to: Path, p: Path) {
    to <= p && Moved(p, to, from) in t
  }

  /** A copy of the tree at `from` to `to` may change what is at `p`. */
  ghost predicate MayChange(t: Tree, from: Path, to: Path, p: Path)
    requires p in t
  {
    InImage(t, from, to, p) && t[p] != t[Moved(p, to, from)]
  }

  /** `now` differs from `t` only at places of source nodes that did not hold them yet, and by new
      directories on the way to `to`. Nothing is gone. */
  ghost predicate Touched(t: Tree, now: Tree, from: Path, to: Path) {
    && ValidTree(now)
    && (forall p :: p in t ==> p in now && (now[p] == t[p] || MayChange(t, from, to, p)))
    && (forall p :: p in now && p !in t ==> InImage(t, from, to, p) || (p <= to && now[p] == NEW_DIRECTORY))
  }

  /** What the copy writes into the source tree itself is there already. It holds of every target
      that is not above the source, and of the source as its own target. */
  ghost predicate SourceSafe(t: Tree, from: Path, to: Path) {
    forall q :: q in t && from <= q && from <= Moved(q, from, to) ==>
      Moved(q, from, to) in t && t[Moved(q, from, to)] == t[q]
  }

  /** What a copy needs: a valid tree, a target not inside the source, a source that is safe from the
      copy, and no link at the target or on its way. */
  ghost predicate CanCopy(t: Tree, from: Path, to: Path) {
    && ValidTree(t) && AllNames(from) && AllNames(to)
    && (from <= to ==> from == to)
    && SourceSafe(t, from, to)
    && NoLinksOn(t, to) && NoLinksUnder(t, to)
  }

  lemma PrefixesCompare(a: Path, b: Path, q: Path)
    requires a <= q && b <= q
    ensures a <= b || b <= a
  {
  }

  /** Unless the target lies above the source, the source is safe. */
  lemma SafeUnlessAbove(t: Tree, from: Path, to: Path)
    requires !(to < from) && (from <= to ==> from == to)
    ensures SourceSafe(t, from, to)
  {
    forall q | q in t && from <= q && from <= Moved(q, from, to)
      ensures Moved(q, from, to) == q
    {
      PrefixesCompare(from, to, Moved(q, from, to));
      MovedBack(q, from, to);
    }
  }

  /** The source stays as it is. */
  lemma SourceIntact(t: Tree, now: Tree, from: Path, to: Path)
    requires CanCopy(t, from, to) && Touched(t, now, from, to) && from in t
    ensures Under(now, from) == Under(t, from) && Children(now, from) == Children(t, from)
    ensures forall q :: q in t && from <= q ==> q in now && now[q] == t[q]
  {
    forall p | p in now && from <= p
      ensures p in t && now[p] == t[p]
    {
      SourceNodeIntact(t, now, from, to, p);
    }
  }

  lemma SourceNodeIntact(t: Tree, now: Tree, from: Path, to: Path, p: Path)
    requires CanCopy(t, from, to) && Touched(t, now, from, to) && from in t && p in now && from <= p
    ensures p in t && now[p] == t[p]
  {
    if InImage(t, from, to, p) {
      MovedBack(p, to, from);
      assert t[Moved(Moved(p, to, from), from, to)] == t[Moved(p, to, from)];
    } else if p !in t {
      PrefixOfPrefix(from, p, to);
    }
  }

  lemma PrefixOfPrefix(a: Path, b: Path, c: Path)
    ensures a <= b <= c ==> a <= c && (a == c ==> b == a)
  {
  }

  lemma TouchedNothing(t: Tree, from: Path, to: Path)
    requires ValidTree(t)
    ensures Touched(t, t, from, to)
  {
  }

  lemma TouchedByDirectories(t: Tree, now: Tree, from: Path, to: Path, up: Path, k: nat)
    requires up <= to && MadeUpTo(t, now, up, k)
    ensures Touched(t, now, from, to)
  {
    WithDirectoriesIs(t, up[..k]);
  }

  /** Setting the node at `to` itself. */
  lemma TouchedBySet(t: Tree, now: Tree, from: Path, to: Path, n: Node)
    requires Touched(t, now, from, to) && from in t && AllNames(to) && GoodNode(n)
    requires (if to == [] then n.Directory? else IsDirectory(now, Parent(to)))
    requires to in now && now[to].Directory? ==> n.Directory?
    requires to in t && t[to] == t[from] ==> n == t[to]
    ensures Touched(t, now[to := n], from, to)
  {
    assert Moved(to, to, from) == from;
    if to == [] {
      SetRootKeepsValid(now, n);
    } else {
      SetKeepsValid(now, to, n);
    }
  }

  lemma SetRootKeepsValid(t: Tree, n: Node)
    requires ValidTree(t) && n.Directory? && GoodNode(n)
    ensures ValidTree(t[[] := n])
  {
    var r := t[[] := n];
    forall q | q in r
      ensures NodeOk(r, q)
    {
      if q != [] {
        assert NodeOk(t, q);
      }
    }
  }

  lemma RelocatedUnion(t: Tree, a: set<Path>, b: set<Path>, from: Path, to: Path)
    requires forall q :: q in a ==> q in t && from <= q
    requires forall q :: q in b ==> q in t && from <= q
    ensures Relocated(t, a + b, from, to) == Relocated(t, a, from, to) + Relocated(t, b, from, to)
  {
    var x, y, z := Relocated(t, a, from, to), Relocated(t, b, from, to), Relocated(t, a + b, from, to);
    RelocatedIs(t, a, from, to);
    RelocatedIs(t, b, from, to);
    RelocatedIs(t, a + b, from, to);
    forall p
      ensures p in z <==> p in x || p in y
    {
      if p in z {
        MovedBack(p, to, from);
      } else if p in x || p in y {
        MovedBack(p, to, from);
      }
    }
  }

  lemma RelocatedRoot(t: Tree, from: Path, to: Path)
    requires from in t
    ensures Relocated(t, {from}, from, to) == map[to := Placed(t, t[from], to)]
  {
    RelocatedIs(t, {from}, from, to);
    assert Moved(from, from, to) == to;
    forall p | p in Relocated(t, {from}, from, to)
      ensures p == to
    {
      MovedBack(p, to, from);
    }
  }

  /** `t'` agrees with `t` on the source nodes `s` below a child and on everything below its target. */
  ghost predicate SameBelow(t: Tree, t': Tree, s: set<Path>, from: Path, to: Path, name: string) {
    && (forall q :: q in s ==> q in t && q in t' && t'[q] == t[q] && from <= q && from + [name] <= q)
    && SameAt(t, t', to + [name])
  }

  ghost predicate SameAt(t: Tree, t': Tree, p: Path) {
    forall q :: p <= q ==> (q in t <==> q in t') && (q in t ==> t'[q] == t[q])
  }

  lemma PlacedSame(t: Tree, t': Tree, n: Node, at: Path, p: Path)
    requires SameAt(t, t', at) && at <= p
    ensures Placed(t', n, p) == Placed(t, n, p)
  {
  }

  lemma RelocatedAt(t: Tree, s: set<Path>, from: Path, to: Path, p: Path)
    requires (forall q :: q in s ==> q in t && from <= q) && p in Relocated(t, s, from, to)
    ensures to <= p && Moved(p, to, from) in s
    ensures Relocated(t, s, from, to)[p] == Placed(t, t[Moved(p, to, from)], p)
    ensures Moved(Moved(p, to, from), from, to) == p
  {
    RelocatedIs(t, s, from, to);
    MovedBack(p, to, from);
  }

  lemma RelocatedHas(t: Tree, s: set<Path>, from: Path, to: Path, q: Path)
    requires (forall q :: q in s ==> q in t && from <= q) && q in s
    ensures var p := Moved(q, from, to);
            p in Relocated(t, s, from, to) && Relocated(t, s, from, to)[p] == Placed(t, t[q], p)
  {
    RelocatedIs(t, s, from, to);
  }

  lemma ChildForward(t: Tree, t': Tree, s: set<Path>, from: Path, to: Path, name: string, p: Path)
    requires SameBelow(t, t', s, from, to, name)
    requires p in Relocated(t', s, from + [name], to + [name])
    ensures p in Relocated(t, s, from, to)
    ensures Relocated(t, s, from, to)[p] == Relocated(t', s, from + [name], to + [name])[p]
  {
    RelocatedAt(t', s, from + [name], to + [name], p);
    var q := Moved(p, to + [name], from + [name]);
    ChildMoved(q, from, to, name);
    RelocatedHas(t, s, from, to, q);
    PlacedSame(t, t', t[q], to + [name], p);
  }

  lemma ChildBackward(t: Tree, t': Tree, s: set<Path>, from: Path, to: Path, name: string, p: Path)
    requires SameBelow(t, t', s, from, to, name)
    requires p in Relocated(t, s, from, to)
    ensures p in Relocated(t', s, from + [name], to + [name])
  {
    RelocatedIs(t', s, from + [name], to + [name]);
    RelocatedIs(t, s, from, to);
    MovedBack(p, to, from);
    ChildMoved(Moved(p, to, from), from, to, name);
  }

  lemma EqualMaps(x: Tree, y: Tree)
    requires forall p :: p in x ==> p in y && y[p] == x[p]
    requires forall p :: p in y ==> p in x
    ensures x == y
  {
  }

  /** Relocating a child's tree child to child is relocating it parent to parent. */
  lemma RelocatedChild(t: Tree, t': Tree, s: set<Path>, from: Path, to: Path, name: string)
    requires SameBelow(t, t', s, from, to, name)
    ensures Relocated(t', s, from + [name], to + [name]) == Relocated(t, s, from, to)
  {
    var x, y := Relocated(t', s, from + [name], to + [name]), Relocated(t, s, from, to);
    forall p | p in x
      ensures p in y && y[p] == x[p]
    {
      ChildForward(t, t', s, from, to, name, p);
    }
    forall p | p in y
      ensures p in x
    {
      ChildBackward(t, t', s, from, to, name, p);
    }
    EqualMaps(x, y);
  }

  lemma ChildMoved(q: Path, from: Path, to: Path, name: string)
    requires from + [name] <= q
    ensures from <= q && Moved(q, from + [name], to + [name]) == Moved(q, from, to)
  {
    assert q[|from|..] == [name] + q[|from| + 1..];
  }

  lemma {:induction false} NothingToAdd(t: Tree, p: Path)
    requires ValidTree(t) && p in t
    ensures WithDirectories(t, p) == t
  {
    if p != [] {
      PrefixesExist(t, p, |p| - 1);
      NothingToAdd(t, Parent(p));
    }
  }

  /** Nothing is missing on the way to a node that is there. */
  lemma NothingAbove(t: Tree, p: Path)
    requires ValidTree(t) && p in t
    ensures WithDirectories(t, Parent(p)) == t
  {
    if p != [] {
      PrefixesExist(t, p, |p| - 1);
    }
    NothingToAdd(t, Parent(p));
  }

  /** A file or link has nothing below it, so copying it sets one node. */
  lemma CopiedLeaf(t: Tree, from: Path, to: Path)
    requires ValidTree(t) && from in t && !t[from].Directory?
    ensures Copied(t, from, to) == WithDirectories(t, Parent(to))[to := t[from]]
  {
    LeafUnder(t, from);
    RelocatedRoot(t, from, to);
  }

  lemma LeafUnder(t: Tree, from: Path)
    requires ValidTree(t) && from in t && !t[from].Directory?
    ensures Under(t, from) == {from}
  {
    forall q | q in t && from <= q
      ensures q == from
    {
      if |q| > |from| {
        assert q[..|from|] == from;
        PrefixesExist(t, q, |from|);
      }
    }
  }

  // Whatever the source and the target, a copy takes nothing away.

  ghost predicate SameKind(a: Node, b: Node) {
    a.File? == b.File? && a.Directory? == b.Directory?
  }

  /** Nothing of `t` is gone or has become something else. */
  ghost predicate Grew(t: Tree, now: Tree) {
    ValidTree(now) && forall p :: p in t ==> p in now && SameKind(t[p], now[p])
  }

  lemma SetGrew(t: Tree, p: Path, n: Node)
    requires ValidTree(t) && AllNames(p) && GoodNode(n) && p != [] && IsDirectory(t, Parent(p))
    requires p in t ==> SameKind(t[p], n)
    ensures Grew(t, t[p := n])
  {
    SetKeepsValid(t, p, n);
  }

  lemma RootGrew(t: Tree, n: Node)
    requires ValidTree(t) && n.Directory? && GoodNode(n)
    ensures Grew(t, t[[] := n])
  {
    SetRootKeepsValid(t, n);
  }

  lemma MadeGrew(t: Tree, now: Tree, p: Path, k: nat)
    requires MadeUpTo(t, now, p, k)
    ensures Grew(t, now)
  {
    WithDirectoriesIs(t, p[..k]);
  }

  lemma MkdirGrew(t: Tree, p: Path)
    requires ValidTree(t) && AllNames(p)
    ensures MkdirEffect(t, p).Some? ==> Grew(t, MkdirEffect(t, p).value) && p in MkdirEffect(t, p).value
  {
    if p != [] && p !in t && IsDirectory(t, Parent(p)) {
      SetGrew(t, p, NEW_DIRECTORY);
    }
  }

  lemma MetaGrew(t: Tree, p: Path, n: Node)
    requires ValidTree(t) && p in t && SameKind(t[p], n) && GoodNode(n)
    ensures Grew(t, t[p := n])
  {
    assert NodeOk(t, p);
    if p == [] {
      RootGrew(t, n);
    } else {
      SetGrew(t, p, n);
    }
  }

  lemma WriteGrew(t: Tree, p: Path, content: Bytes)
    requires ValidTree(t) && AllNames(p)
    ensures WriteEffect(t, p, content).Some? ==> Grew(t, WriteEffect(t, p, content).value)
  {
    if p != [] && OnlyDirectoriesOn(t, Parent(p)) {
      if p !in t {
        assert forall i :: 0 <= i < |Parent(p)| ==> Parent(p)[i] == p[i];
        WithDirectoriesValid(t, Parent(p));
        WithDirectoriesIs(t, Parent(p));
        SetGrew(WithDirectories(t, Parent(p)), p, File(content, NEW_FILE_META));
      } else if t[p].File? {
        assert NodeOk(t, p);
        MetaGrew(t, p, t[p].(content := content));
      }
    }
  }

  /** A place below something that is no directory takes nothing. */
  lemma NoRoomBelow(t: Tree, f: Path, p: Path, content: Bytes, target: string)
    requires ValidTree(t) && f in t && !t[f].Directory? && f < p
    ensures WriteEffect(t, p, content).None? && SymlinkEffect(t, p, target).None?
  {
    var up := Parent(p);
    assert up[..|f|] == f && up[..|up|] == up;
    if IsDirectory(t, up) {
      PrefixesExist(t, up, |f|);
    }
  }

  /** The metadata of the copied node `f` are to go to its copy. */
  ghost predicate MetaOf(t: Tree, now: Tree, f: Path, names: Path, meta: Meta) {
    && AllNames(names) && f in t && !t[f].Symlink? && meta == t[f].meta
    && Touched(t, now, f, names) && names in now && !now[names].Symlink?
  }

  /** Give `to` the metadata of the original, in two calls. */
  method CopyMeta(fs: Filesystem, to: string, meta: Meta, ghost t: Tree, ghost f: Path, ghost names: Path)
    returns (ok: bool)
    requires ValidTree(fs.nodes) && KernelPath(to) == names && 4096 <= meta.mode < 65536
    modifies fs
    ensures Grew(old(fs.nodes), fs.nodes)
    ensures ok ==> names in old(fs.nodes) && !old(fs.nodes)[names].Symlink?
                   && fs.nodes == old(fs.nodes)[names := old(fs.nodes)[names].(meta := meta)]
    ensures MetaOf(t, old(fs.nodes), f, names, meta) ==> Touched(t, fs.nodes, f, names) && (fs.Reliable() ==> ok)
  {
    ghost var before := fs.nodes;
    if names in before && !before[names].Symlink? {
      ghost var n := before[names];
      ChmodRestores(n.meta.mode, meta.mode);
      MetaGrew(before, names, n.(meta := n.meta.(mode := meta.mode)));
      if MetaOf(t, before, f, names, meta) {
        MetaTouches(t, before, f, names, n.(meta := n.meta.(mode := meta.mode)));
      }
    }
    ok := fs.Chmod(to, meta.mode);
    if ok {
      MetaGrew(fs.nodes, names, before[names].(meta := meta));
      if MetaOf(t, before, f, names, meta) {
        MetaTouches(t, fs.nodes, f, names, before[names].(meta := meta));
      }
      ok := fs.Chown(to, meta.uid, meta.gid);
    }
  }

  /** Changing metadata towards those of the original. */
  lemma MetaTouches(t: Tree, now: Tree, f: Path, names: Path, n: Node)
    requires Touched(t, now, f, names) && f in t && names in now && !t[f].Symlink?
    requires !now[names].Symlink? && !n.Symlink? && n == now[names].(meta := n.meta) && GoodNode(n)
    requires n.meta.mode == t[f].meta.mode
    requires (n.meta.uid == t[f].meta.uid && n.meta.gid == t[f].meta.gid)
             || (n.meta.uid == now[names].meta.uid && n.meta.gid == now[names].meta.gid)
    ensures Touched(t, now[names := n], f, names)
  {
    assert NodeOk(now, names);
    assert Moved(names, names, f) == f;
    if names in t && t[names] == t[f] {
      assert !MayChange(t, f, names, names);
    }
    TouchedBySet(t, now, f, names, n);
  }

  method CopyLink(fs: Filesystem, from: string, to: string, ghost f: Path, ghost t: Path) returns (ok: bool)
    requires ValidTree(fs.nodes) && KernelPath(from) == f && KernelPath(to) == t && AllNames(t)
    modifies fs
    ensures Grew(old(fs.nodes), fs.nodes) && (f < t ==> !ok)
    ensures f in old(fs.nodes) ==> Touched(old(fs.nodes), fs.nodes, f, t)
    ensures ok ==> f in old(fs.nodes) && fs.nodes == Copied(old(fs.nodes), f, t)
    ensures f in old(fs.nodes) && old(fs.nodes)[f].Symlink? ==>
              fs.Reliable() && t != [] && IsDirectory(old(fs.nodes), Parent(t)) && t !in old(fs.nodes) ==> ok
  {
    ghost var before := fs.nodes;
    TouchedNothing(before, f, t);
    var target := fs.ReadLink(from);
    if target.None? {
      return false;
    }
    if f < t {
      NoRoomBelow(before, f, t, [], target.value);
    }
    if t != [] && t !in before && IsDirectory(before, Parent(t)) {
      SetGrew(before, t, Symlink(target.value));
      TouchedBySet(before, before, f, t, Symlink(target.value));
      NothingToAdd(before, Parent(t));
      CopiedLeaf(before, f, t);
    }
    ok := fs.MakeSymlink(target.value, to);
  }

  /** What a write leaves at `p`: a file there keeps its metadata. */
  function WrittenAt(t: Tree, p: Path, content: Bytes): Tree {
    WithDirectories(t, Parent(p))[p := File(content, if p in t && t[p].File? then t[p].meta else NEW_FILE_META)]
  }

  lemma FileCopied(before: Tree, f: Path, t: Path)
    requires ValidTree(before) && f in before && before[f].File?
    ensures var w := WrittenAt(before, t, before[f].content);
            w[t := w[t].(meta := before[f].meta)] == Copied(before, f, t)
  {
    CopiedLeaf(before, f, t);
  }

  lemma WriteTouches(before: Tree, f: Path, t: Path)
    requires ValidTree(before) && AllNames(t) && f in before && before[f].File?
    ensures var effect := WriteEffect(before, t, before[f].content);
            effect.Some? ==>
              && effect.value == WrittenAt(before, t, before[f].content)
              && Touched(before, effect.value, f, t)
  {
    if t != [] && OnlyDirectoriesOn(before, Parent(t)) && (t in before ==> before[t].File?) {
      var up := Parent(t);
      assert up[..|up|] == up;
      WithDirectoriesValid(before, up);
      WithDirectoriesIs(before, up);
      TouchedByDirectories(before, WithDirectories(before, up), f, t, up, |up|);
      if t in before {
        NothingAbove(before, t);
        assert NodeOk(before, t);
      }
      TouchedBySet(before, WithDirectories(before, up), f, t, WrittenAt(before, t, before[f].content)[t]);
    }
  }

  /** The public write: the writable guard, then the kernel call. */
  method WriteFile(fs: Filesystem, path: string, content: Bytes) returns (ok: bool)
    modifies fs
    ensures Did(old(fs.nodes), WriteEffect(old(fs.nodes), KernelPath(path), content), ok, fs.nodes)
    ensures AssertWritable(path).Some? ==> !ok && fs.nodes == old(fs.nodes)
    ensures fs.Reliable() && AssertWritable(path).None? ==>
              (ok <==> WriteEffect(old(fs.nodes), KernelPath(path), content).Some?)
  {
    if AssertWritable(path).Some? {
      return false;
    }
    ok := fs.WriteFile(path, content);
  }

  /** The content of a file, written to its copy. */
  method CopyContent(fs: Filesystem, from: string, to: string, ghost f: Path, ghost t: Path) returns (ok: bool)
    requires ValidTree(fs.nodes) && KernelPath(from) == f && KernelPath(to) == t && AllNames(t)
    requires f in fs.nodes && fs.nodes[f].File?
    modifies fs
    ensures Grew(old(fs.nodes), fs.nodes) && Touched(old(fs.nodes), fs.nodes, f, t) && (f < t ==> !ok)
    ensures ok ==> fs.nodes == WrittenAt(old(fs.nodes), t, old(fs.nodes)[f].content)
    ensures fs.Reliable() && Writable(to, t) && WriteFits(old(fs.nodes), t) ==> ok
  {
    ghost var before := fs.nodes;
    TouchedNothing(before, f, t);
    var content := fs.ReadFile(from);
    if content.None? {
      return false;
    }
    if f < t {
      NoRoomBelow(before, f, t, content.value, "");
    }
    WriteGrew(before, t, content.value);
    WriteTouches(before, f, t);
    WritablePasses(to, t);
    ok := WriteFile(fs, to, content.value);
  }

  method CopyFile(fs: Filesystem, from: string, to: string, meta: Meta, ghost f: Path, ghost t: Path) returns (ok: bool)
    requires ValidTree(fs.nodes) && KernelPath(from) == f && KernelPath(to) == t && AllNames(t)
    requires f in fs.nodes && fs.nodes[f].File? && meta == fs.nodes[f].meta
    modifies fs
    ensures Grew(old(fs.nodes), fs.nodes) && Touched(old(fs.nodes), fs.nodes, f, t) && (f < t ==> !ok)
    ensures ok ==> fs.nodes == Copied(old(fs.nodes), f, t)
    ensures fs.Reliable() && Writable(to, t) && WriteFits(old(fs.nodes), t) ==> ok
  {
    ghost var before := fs.nodes;
    assert NodeOk(before, f);
    ok := CopyContent(fs, from, to, f, t);
    if ok {
      FileCopied(before, f, t);
      ok := CopyMeta(fs, to, meta, before, f, t);
    }
  }

  /** A file can be written at `p`. */
  ghost predicate WriteFits(t: Tree, p: Path) {
    p != [] && OnlyDirectoriesOn(t, Parent(p)) && (p in t ==> t[p].File?)
  }

  /** A path under which everything can be written: no trailing slash, and not below `/proc`. */
  ghost predicate Writable(path: string, names: Path) {
    path == PathOf(names) && (names != [] ==> names[0] != "proc")
  }

  lemma WritablePasses(path: string, names: Path)
    requires AllNames(names)
    ensures Writable(path, names) ==> AssertWritable(path).None?
  {
    assert names[..|names|] == names;
    if Writable(path, names) {
      PrefixesWritable(names, |names|);
    }
  }

  lemma ParentWritable(path: string, names: Path)
    requires Writable(path, names) && AllNames(names) && names != []
    ensures AssertWritable(PosixDirname(path)).None? && KernelPath(PosixDirname(path)) == Parent(names)
  {
    DirnameOf(names);
    PrefixesWritable(names, |names| - 1);
    NamesPath(Parent(names));
  }

  lemma ChildWritable(path: string, names: Path, name: string)
    requires Writable(path, names) && AllNames(names) && names != []
    ensures Writable(JoinChild(path, name), names + [name])
  {
    JoinChildOf(names, name);
  }

  /** `Mkdirp` at a location. */
  method MkdirpAt(fs: Filesystem, path: string, ghost names: Path) returns (ok: bool)
    requires ValidTree(fs.nodes) && KernelPath(path) == names
    modifies fs
    ensures exists k :: MadeUpTo(old(fs.nodes), fs.nodes, names, k)
    ensures ok ==> fs.nodes == WithDirectories(old(fs.nodes), names)
    ensures fs.Reliable() && AssertWritable(path).None? && OnlyDirectoriesOn(old(fs.nodes), names) ==> ok
  {
    ok := Mkdirp(fs, path);
  }

  /** The target directory before it gets its metadata: what was there, or a new directory. */
  function Based(t: Tree, p: Path): Tree {
    if p in t then t else WithDirectories(t, Parent(p))[p := NEW_DIRECTORY]
  }

  /** The tree is ready for the directory at `t` to be made. */
  ghost predicate Prepared(before: Tree, now: Tree, f: Path, t: Path) {
    var effect := if t in now then Some(now) else MkdirEffect(now, t);
    effect.Some? ==> effect.value == Based(before, t) && Touched(before, effect.value, f, t)
  }

  /** Once the directories on the way are made, making the last one completes them. */
  lemma MkdirTouches(before: Tree, now: Tree, f: Path, t: Path, up: Path)
    requires ValidTree(before) && f in before && AllNames(t) && Touched(before, now, f, t)
    requires now == WithDirectories(before, up) && (up == t || (t != [] && up == Parent(t)))
    ensures Prepared(before, now, f, t)
  {
    WithDirectoriesIs(before, up);
    if t in before {
      NothingAbove(before, t);
      NothingToAdd(before, t);
    } else if t !in now && IsDirectory(now, Parent(t)) {
      TouchedBySet(before, now, f, t, NEW_DIRECTORY);
    }
  }

  /** Makes the ancestors of the target where missing. */
  method MakeAbove(fs: Filesystem, to: string, ghost f: Path, ghost t: Path) returns (ok: bool)
    requires ValidTree(fs.nodes) && f in fs.nodes && AllNames(t) && Leads(to, t)
    modifies fs
    ensures Grew(old(fs.nodes), fs.nodes) && Touched(old(fs.nodes), fs.nodes, f, t)
    ensures ok ==> Prepared(old(fs.nodes), fs.nodes, f, t)
    ensures fs.Reliable() && t != [] && Writable(to, t) && OnlyDirectoriesOn(old(fs.nodes), Parent(t)) ==>
              ok && (t in fs.nodes || MkdirEffect(fs.nodes, t).Some?)
  {
    ghost var before := fs.nodes;
    DirnameLeads(to, t);
    ghost var up := KernelPath(PosixDirname(to));
    if t != [] && Writable(to, t) && OnlyDirectoriesOn(before, Parent(t)) {
      ParentWritable(to, t);
      WithDirectoriesValid(before, Parent(t));
      WithDirectoriesIs(before, Parent(t));
    }
    ok := MkdirpAt(fs, PosixDirname(to), up);
    ghost var k :| MadeUpTo(before, fs.nodes, up, k);
    TouchedByDirectories(before, fs.nodes, f, t, up, k);
    MadeGrew(before, fs.nodes, up, k);
    if ok {
      MkdirTouches(before, fs.nodes, f, t, up);
    }
  }

  method MakeIfMissing(fs: Filesystem, to: string, ghost t: Path) returns (ok: bool)
    requires ValidTree(fs.nodes) && KernelPath(to) == t && AllNames(t)
    modifies fs
    ensures Grew(old(fs.nodes), fs.nodes)
    ensures var effect := if t in old(fs.nodes) then Some(old(fs.nodes)) else MkdirEffect(old(fs.nodes), t);
            Did(old(fs.nodes), effect, ok, fs.nodes)
    ensures fs.Reliable() && (t in old(fs.nodes) || MkdirEffect(old(fs.nodes), t).Some?) ==> ok
  {
    MkdirGrew(fs.nodes, t);
    var found := fs.Exists(to);
    if found.None? {
      return false;
    }
    if found.value {
      return true;
    }
    ok := fs.Mkdir(to);
  }

  lemma BasedPlaced(before: Tree, f: Path, t: Path)
    requires ValidTree(before) && f in before && before[f].Directory? && NoLinksUnder(before, t)
    ensures var b := Based(before, t);
            t in b && !b[t].Symlink?
            && b[t := b[t].(meta := before[f].meta)] ==
                WithDirectories(before, Parent(t))[t := Placed(before, before[f], t)]
  {
    if t in before {
      NothingAbove(before, t);
    }
  }

  /** The target directory, and its ancestors, where they are missing. */
  method MakePlace(fs: Filesystem, to: string, ghost f: Path, ghost t: Path) returns (ok: bool)
    requires ValidTree(fs.nodes) && AllNames(t) && Leads(to, t) && f in fs.nodes
    modifies fs
    ensures Grew(old(fs.nodes), fs.nodes) && Touched(old(fs.nodes), fs.nodes, f, t)
    ensures ok ==> fs.nodes == Based(old(fs.nodes), t)
    ensures fs.Reliable() && t != [] && Writable(to, t) && OnlyDirectoriesOn(old(fs.nodes), Parent(t)) ==> ok
  {
    ok := MakeAbove(fs, to, f, t);
    if ok {
      ok := MakeIfMissing(fs, to, t);
    }
  }

  /** The original's directory node at the target. */
  method MakeTarget(fs: Filesystem, to: string, meta: Meta, ghost f: Path, ghost t: Path) returns (ok: bool)
    requires ValidTree(fs.nodes) && AllNames(t) && Leads(to, t) && f in fs.nodes && fs.nodes[f] == Directory(meta)
    modifies fs
    ensures Grew(old(fs.nodes), fs.nodes) && (ok ==> t in fs.nodes)
    ensures NoLinksUnder(old(fs.nodes), t) ==> Touched(old(fs.nodes), fs.nodes, f, t)
    ensures NoLinksUnder(old(fs.nodes), t) && ok ==>
              fs.nodes == WithDirectories(old(fs.nodes), Parent(t))[t := Placed(old(fs.nodes), old(fs.nodes)[f], t)]
    ensures NoLinksUnder(old(fs.nodes), t) && fs.Reliable() ==>
              t != [] && Writable(to, t) && OnlyDirectoriesOn(old(fs.nodes), Parent(t)) ==> ok
  {
    ghost var before := fs.nodes;
    assert NodeOk(before, f);
    ok := MakePlace(fs, to, f, t);
    if ok {
      if NoLinksUnder(before, t) {
        BasedPlaced(before, f, t);
      }
      ok := CopyMeta(fs, to, meta, before, f, t);
    }
  }

  /** `f` itself and what lies below the children in `done`. */
  function Part(t: Tree, f: Path, done: set<string>): set<Path> {
    set q | q in t && f <= q && (|q| == |f| || q[|f|] in done)
  }

  ghost function PartlyCopied(before: Tree, f: Path, t: Path, done: set<string>): Tree {
    WithDirectories(before, Parent(t)) + Relocated(before, Part(before, f, done), f, t)
  }

  lemma PartGrows(t: Tree, f: Path, done: set<string>, name: string)
    ensures Part(t, f, done + {name}) == Part(t, f, done) + Under(t, f + [name])
  {
    forall q | q in t
      ensures f + [name] <= q <==> f <= q && |q| > |f| && q[|f|] == name
    {
      if f <= q && |q| > |f| {
        assert q[..|f| + 1] == f + [q[|f|]];
      }
    }
  }

  /** The target itself was copied first. */
  lemma TargetCopied(before: Tree, f: Path, t: Path, done: set<string>)
    requires f in before
    ensures var now := PartlyCopied(before, f, t, done); t in now && now[t] == Placed(before, before[f], t)
  {
    RelocatedHas(before, Part(before, f, done), f, t, f);
    assert Moved(f, f, t) == t;
  }

  /** Nothing below the place of a child not done was touched. */
  lemma ChildUntouched(before: Tree, f: Path, t: Path, done: set<string>, name: string)
    requires name !in done
    ensures SameAt(before, PartlyCopied(before, f, t, done), t + [name])
  {
    var part := Relocated(before, Part(before, f, done), f, t);
    WithDirectoriesIs(before, Parent(t));
    forall q | q in part
      ensures !(t + [name] <= q)
    {
      RelocatedAt(before, Part(before, f, done), f, t, q);
      assert |q| > |t| ==> Moved(q, t, f)[|f|] == q[|t|];
    }
  }

  lemma MapAssoc(a: Tree, b: Tree, c: Tree)
    ensures a + (b + c) == a + b + c
  {
  }

  /** Copying one more child completes its part. */
  lemma ChildCopied(before: Tree, now: Tree, f: Path, t: Path, done: set<string>, name: string)
    requires CanCopy(before, f, t) && f in before && f + [name] in before && name !in done
    requires now == PartlyCopied(before, f, t, done) && Touched(before, now, f, t)
    ensures Copied(now, f + [name], t + [name]) == PartlyCopied(before, f, t, done + {name})
  {
    var u := Under(before, f + [name]);
    BelowChild(before, f, name);
    TargetCopied(before, f, t, done);
    assert Copied(now, f + [name], t + [name]) == now + Relocated(before, u, f, t) by {
      assert Parent(t + [name]) == t;
      NothingToAdd(now, t);
      ChildSourceSame(before, now, f, t, name);
      ChildUntouched(before, f, t, done, name);
      RelocatedChild(before, now, u, f, t, name);
    }
    PartGrows(before, f, done, name);
    RelocatedUnion(before, Part(before, f, done), u, f, t);
    MapAssoc(WithDirectories(before, Parent(t)), Relocated(before, Part(before, f, done), f, t),
             Relocated(before, u, f, t));
  }

  lemma ChildSourceSame(before: Tree, now: Tree, f: Path, t: Path, name: string)
    requires CanCopy(before, f, t) && f in before && Touched(before, now, f, t)
    ensures Under(now, f + [name]) == Under(before, f + [name])
    ensures forall q :: q in Under(before, f + [name]) ==> q in now && now[q] == before[q]
  {
    SourceIntact(before, now, f, t);
    BelowChild(before, f, name);
    BelowChild(now, f, name);
    assert forall q :: q in now && f <= q ==> q in Under(now, f);
  }

  lemma BelowChild(t: Tree, f: Path, name: string)
    ensures forall q :: q in Under(t, f + [name]) ==> f <= q
  {
    assert f <= f + [name];
  }

  lemma AllCopied(before: Tree, f: Path, t: Path, done: set<string>)
    requires ValidTree(before) && f in before && Children(before, f) <= done
    ensures PartlyCopied(before, f, t, done) == Copied(before, f, t)
  {
    forall q | q in before && f <= q && |q| > |f|
      ensures q[|f|] in done
    {
      PrefixesExist(before, q, |f| + 1);
      assert q[..|f| + 1][|f|] == q[|f|];
      assert f <= q[..|f| + 1];
    }
    assert Part(before, f, done) == Under(before, f);
  }

  lemma NothingCopied(before: Tree, f: Path, t: Path)
    requires f in before
    ensures PartlyCopied(before, f, t, {}) == WithDirectories(before, Parent(t))[t := Placed(before, before[f], t)]
  {
    forall q | q in Part(before, f, {})
      ensures q == f
    {
      assert q[..|f|] == q;
    }
    assert Part(before, f, {}) == {f};
    RelocatedRoot(before, f, t);
  }

  lemma ChildSmaller(t: Tree, f: Path, name: string)
    requires f in t
    ensures |Under(t, f + [name])| < |Under(t, f)|
  {
    BelowChild(t, f, name);
    var big, small := Under(t, f), Under(t, f + [name]);
    assert small <= big - {f};
    SmallerSet(small, big - {f});
  }

  lemma SmallerSet<T>(a: set<T>, b: set<T>)
    requires a <= b
    ensures |a| <= |b|
  {
    assert b == a + (b - a);
  }

  lemma ChildIsName(t: Tree, f: Path, name: string)
    requires ValidTree(t) && name in Children(t, f)
    ensures f + [name] in t && AllNames(f + [name]) && IsName(name)
  {
    var q :| q in t && |q| == |f| + 1 && f <= q && q[|f|] == name;
    assert q == f + [name];
    assert NodeOk(t, q);
    assert q[|f|] == name;
  }

  lemma ChildNotInside(f: Path, t: Path, name: string)
    requires f <= t ==> f == t
    ensures f + [name] <= t + [name] ==> f + [name] == t + [name]
  {
    assert forall i :: 0 <= i < |f| ==> (f + [name])[i] == f[i];
    assert forall i :: 0 <= i < |t| ==> (t + [name])[i] == t[i];
  }

  lemma ChildSourceSafe(before: Tree, now: Tree, f: Path, t: Path, name: string)
    requires CanCopy(before, f, t) && f in before && Touched(before, now, f, t)
    ensures SourceSafe(now, f + [name], t + [name])
  {
    SourceIntact(before, now, f, t);
    ChildSourceSame(before, now, f, t, name);
    forall q | q in now && f + [name] <= q && f + [name] <= Moved(q, f + [name], t + [name])
      ensures Moved(q, f + [name], t + [name]) in now && now[Moved(q, f + [name], t + [name])] == now[q]
    {
      ChildMoved(q, f, t, name);
      assert q in Under(now, f + [name]);
      var m := Moved(q, f, t);
      assert f <= m && m in before && before[m] == before[q];
    }
  }

  /** A child's copy may start. */
  lemma ChildCanCopy(before: Tree, now: Tree, f: Path, t: Path, done: set<string>, name: string)
    requires CanCopy(before, f, t) && f in before && name in Children(before, f) && name !in done
    requires now == PartlyCopied(before, f, t, done) && Touched(before, now, f, t)
    ensures CanCopy(now, f + [name], t + [name])
    ensures Under(now, f + [name]) == Under(before, f + [name])
  {
    ChildIsName(before, f, name);
    ChildSourceSame(before, now, f, t, name);
    ChildNotInside(f, t, name);
    ChildSourceSafe(before, now, f, t, name);
    TargetCopied(before, f, t, done);
    ChildUntouched(before, f, t, done, name);
    assert before[f].Directory? by {
      assert NodeOk(before, f + [name]) && Parent(f + [name]) == f;
    }
    ChildNoLinks(before, now, f, t, name);
  }

  lemma ChildNoLinks(before: Tree, now: Tree, f: Path, t: Path, name: string)
    requires CanCopy(before, f, t) && f in before && Touched(before, now, f, t) && SameAt(before, now, t + [name])
    requires t in now && !now[t].Symlink?
    ensures NoLinksOn(now, t + [name]) && NoLinksUnder(now, t + [name])
  {
    var p := t + [name];
    assert p[..|p|] == p && t <= p;
    forall k | 0 <= k < |p| && p[..k] in now
      ensures !now[p[..k]].Symlink?
    {
      assert p[..k] == t[..k];
      NoLinkAbove(before, now, f, t, k);
    }
  }

  lemma NoLinkAbove(before: Tree, now: Tree, f: Path, t: Path, k: nat)
    requires Touched(before, now, f, t) && k <= |t| && NoLinksOn(before, t) && t in now && !now[t].Symlink?
    ensures t[..k] in now ==> !now[t[..k]].Symlink?
  {
    assert t[..|t|] == t;
    if k < |t| && t[..k] in now {
      PrefixesExist(now, t, k);
    }
  }

  /** What a child's copy touches, its parent's may touch. */
  lemma TouchedFurther(t: Tree, now: Tree, later: Tree, f: Path, to: Path, name: string)
    requires CanCopy(t, f, to) && f in t && f + [name] in t && to in now
    requires Touched(t, now, f, to) && Touched(now, later, f + [name], to + [name])
    ensures Touched(t, later, f, to)
  {
    ChildSourceSame(t, now, f, to, name);
    forall p | p in t
      ensures p in later && (later[p] == t[p] || MayChange(t, f, to, p))
    {
      if later[p] != now[p] {
        ChildImage(t, now, f, to, name, p);
      }
    }
    forall p | p in later && p !in t
      ensures InImage(t, f, to, p) || (p <= to && later[p] == NEW_DIRECTORY)
    {
      if p in now {
        if later[p] != now[p] {
          ChildImage(t, now, f, to, name, p);
        }
      } else if InImage(now, f + [name], to + [name], p) {
        ChildImage(t, now, f, to, name, p);
      } else {
        OnWayToChild(now, to, name, p);
        assert Moved(to + [name], to, f) == f + [name];
      }
    }
  }

  lemma ChildImage(t: Tree, now: Tree, f: Path, to: Path, name: string, p: Path)
    requires InImage(now, f + [name], to + [name], p)
    requires Under(now, f + [name]) == Under(t, f + [name])
    requires forall q :: q in Under(t, f + [name]) ==> q in now && now[q] == t[q]
    ensures InImage(t, f, to, p) && Moved(p, to + [name], f + [name]) == Moved(p, to, f)
    ensures now[Moved(p, to + [name], f + [name])] == t[Moved(p, to, f)]
  {
    ChildMoved(p, to, f, name);
    MovedBack(p, to + [name], f + [name]);
    assert Moved(p, to + [name], f + [name]) in Under(now, f + [name]);
  }

  lemma OnWayToChild(now: Tree, to: Path, name: string, p: Path)
    requires ValidTree(now) && to in now && p !in now && p <= to + [name]
    ensures p == to + [name]
  {
    if |p| <= |to| {
      assert p == to[..|p|];
      PrefixesExist(now, to, |p|);
    }
  }

  /** What is at the places of the source's nodes takes them: a file a file, a directory a directory. */
  ghost predicate Fits(t: Tree, from: Path, to: Path) {
    forall q :: q in t && from <= q && Moved(q, from, to) in t ==>
      if t[q].Directory? then t[Moved(q, from, to)].Directory? else t[q].File? && t[Moved(q, from, to)].File?
  }

  lemma ChildFits(before: Tree, now: Tree, f: Path, t: Path, name: string)
    requires CanCopy(before, f, t) && f in before && Touched(before, now, f, t) && SameAt(before, now, t + [name])
    requires Fits(before, f, t)
    ensures Fits(now, f + [name], t + [name])
  {
    ChildSourceSame(before, now, f, t, name);
    forall q | q in now && f + [name] <= q && Moved(q, f + [name], t + [name]) in now
      ensures if now[q].Directory? then now[Moved(q, f + [name], t + [name])].Directory?
              else now[q].File? && now[Moved(q, f + [name], t + [name])].File?
    {
      ChildMoved(q, f, t, name);
      assert q in Under(now, f + [name]);
    }
  }

  /** What a copy finds no reason to refuse. */
  ghost predicate Ready(t: Tree, from: Path, to: string, names: Path) {
    && from in t && names != []
    && Writable(to, names)
    && OnlyDirectoriesOn(t, Parent(names))
    && (t[from].Symlink? ==> IsDirectory(t, Parent(names)))
    && Fits(t, from, names)
  }

  lemma ReadyFits(t: Tree, from: Path, to: string, names: Path)
    requires Ready(t, from, to, names)
    ensures names in t ==> if t[from].Directory? then t[names].Directory? else t[from].File? && t[names].File?
  {
    assert Moved(from, from, names) == names;
  }

  lemma ChildReady(before: Tree, now: Tree, f: Path, to: string, t: Path, done: set<string>, name: string)
    requires CanCopy(before, f, t) && f in before && name in Children(before, f) && name !in done
    requires now == PartlyCopied(before, f, t, done) && Touched(before, now, f, t) && Ready(before, f, to, t)
    ensures Ready(now, f + [name], JoinChild(to, name), t + [name])
  {
    ChildIsName(before, f, name);
    ChildSourceSame(before, now, f, t, name);
    assert before[f].Directory? by {
      assert NodeOk(before, f + [name]) && Parent(f + [name]) == f;
    }
    TargetCopied(before, f, t, done);
    ReadyFits(before, f, to, t);
    ChildUntouched(before, f, t, done, name);
    ChildFits(before, now, f, t, name);
    ChildWritable(to, t, name);
    assert Parent(t + [name]) == t;
    DirectoriesAbove(now, t);
    assert f + [name] in Under(before, f + [name]);
  }

  lemma DirectoriesAbove(t: Tree, p: Path)
    requires ValidTree(t) && IsDirectory(t, p)
    ensures OnlyDirectoriesOn(t, p)
  {
    forall k | 0 <= k <= |p| && p[..k] in t
      ensures t[p[..k]].Directory?
    {
      PrefixesExist(t, p, k);
      assert p[..|p|] == p;
    }
  }

  /** The copy has a place and is not cut off. */
  ghost predicate Fitting(t: Tree, from: Path, to: Path, depth: nat) {
    CanCopy(t, from, to) && |Under(t, from)| <= depth
  }

  /** One round of the directory loop. */
  method CopyChild(fs: Filesystem, from: string, to: string, entry: string, depth: nat,
                   ghost before: Tree, ghost f: Path, ghost t: Path, ghost done: set<string>)
    returns (ok: bool)
    requires ValidTree(fs.nodes) && depth > 0 && Leads(from, f) && Leads(to, t) && AllNames(t) && f in before
    requires IsName(entry) || entry == "." || entry == ".."
    requires Fitting(before, f, t, depth) ==>
               && Touched(before, fs.nodes, f, t) && fs.nodes == PartlyCopied(before, f, t, done)
               && entry !in done && (entry in Children(before, f) || entry == "." || entry == "..")
    modifies fs
    ensures Grew(old(fs.nodes), fs.nodes) && (IsName(entry) && f + [entry] < t + [entry] ==> !ok)
    ensures Fitting(before, f, t, depth) ==> Touched(before, fs.nodes, f, t)
    ensures Fitting(before, f, t, depth) && ok ==> fs.nodes == PartlyCopied(before, f, t, done + {entry})
    ensures Fitting(before, f, t, depth) && fs.Reliable() && Ready(before, f, to, t) ==> ok
    decreases depth, 0
  {
    if entry == "." || entry == ".." {
      if Fitting(before, f, t, depth) {
        DotsCopyNothing(before, f, t, done, entry);
      }
      return true;
    }
    ghost var now := fs.nodes;
    JoinChildLeads(from, f, entry);
    JoinChildLeads(to, t, entry);
    if Fitting(before, f, t, depth) {
      ChildCanCopy(before, now, f, t, done, entry);
      ChildSmaller(before, f, entry);
      ChildIsName(before, f, entry);
      ChildCopied(before, now, f, t, done, entry);
      TargetCopied(before, f, t, done);
      if Ready(before, f, to, t) {
        ChildReady(before, now, f, to, t, done, entry);
      }
    }
    ok := CopyPath(fs, JoinChild(from, entry), JoinChild(to, entry), depth - 1, f + [entry], t + [entry]);
    if Fitting(before, f, t, depth) {
      TouchedFurther(before, now, fs.nodes, f, t, entry);
    }
  }

  method CopyDirectory(fs: Filesystem, from: string, to: string, meta: Meta, depth: nat, ghost f: Path, ghost t: Path)
    returns (ok: bool)
    requires ValidTree(fs.nodes) && depth > 0 && Leads(from, f) && Leads(to, t) && AllNames(t)
    requires f in fs.nodes && fs.nodes[f] == Directory(meta)
    modifies fs
    ensures Grew(old(fs.nodes), fs.nodes) && (f < t ==> !ok)
    ensures Fitting(old(fs.nodes), f, t, depth) ==> Touched(old(fs.nodes), fs.nodes, f, t)
    ensures Fitting(old(fs.nodes), f, t, depth) && ok ==> fs.nodes == Copied(old(fs.nodes), f, t)
    ensures Fitting(old(fs.nodes), f, t, depth) && fs.Reliable() && Ready(old(fs.nodes), f, to, t) ==> ok
    decreases depth, 2
  {
    ghost var before := fs.nodes;
    ok := MakeTarget(fs, to, meta, f, t);
    if !ok {
      return;
    }
    if Fitting(before, f, t, depth) {
      NothingCopied(before, f, t);
      SourceIntact(before, fs.nodes, f, t);
    }
    LeadsToItself(fs.nodes, f, 0);
    var entries := fs.ReadDir(from);
    if entries.None? {
      return false;
    }
    ok := CopyChildren(fs, from, to, entries.value, depth, before, f, t);
  }

  method CopyChildren(fs: Filesystem, from: string, to: string, names: seq<string>, depth: nat,
                      ghost before: Tree, ghost f: Path, ghost t: Path)
    returns (ok: bool)
    requires ValidTree(fs.nodes) && depth > 0 && Leads(from, f) && Leads(to, t) && AllNames(t) && f in before
    requires t in fs.nodes && Lists(names, Children(fs.nodes, f))
    requires Fitting(before, f, t, depth) ==>
               && Touched(before, fs.nodes, f, t) && fs.nodes == PartlyCopied(before, f, t, {})
               && Children(fs.nodes, f) == Children(before, f)
    modifies fs
    ensures Grew(old(fs.nodes), fs.nodes) && (f < t ==> !ok)
    ensures Fitting(before, f, t, depth) ==> Touched(before, fs.nodes, f, t)
    ensures Fitting(before, f, t, depth) && ok ==> fs.nodes == Copied(before, f, t)
    ensures Fitting(before, f, t, depth) && fs.Reliable() && Ready(before, f, to, t) ==> ok
    decreases depth, 1
  {
    ghost var listed := fs.nodes;
    if f < t {
      IntoItself(listed, f, t);
    }
    var i := 0;
    ghost var done: set<string> := {};
    while i < |names|
      invariant 0 <= i <= |names| && done == Elements(names[..i])
      invariant Grew(listed, fs.nodes) && (f < t ==> t[|f|] !in done)
      invariant Fitting(before, f, t, depth) ==> Touched(before, fs.nodes, f, t)
      invariant Fitting(before, f, t, depth) ==> fs.nodes == PartlyCopied(before, f, t, done)
    {
      ListedEntry(names, Children(listed, f), i);
      ListedName(listed, f, names[i]);
      ok := CopyChild(fs, from, to, names[i], depth, before, f, t, done);
      if !ok {
        return;
      }
      done := done + {names[i]};
      i := i + 1;
    }
    assert names[..i] == names;
    AllListed(listed, f, names);
    if Fitting(before, f, t, depth) {
      AllCopied(before, f, t, done);
    }
    ok := true;
  }

  lemma ListedName(t: Tree, f: Path, name: string)
    requires ValidTree(t)
    ensures name in Children(t, f) ==> IsName(name)
  {
    if name in Children(t, f) {
      ChildIsName(t, f, name);
    }
  }

  /** When the target is inside the source, the entry on the way to it is listed, and its place is
      inside it again. */
  lemma IntoItself(t: Tree, from: Path, to: Path)
    requires ValidTree(t) && to in t && from < to
    ensures to[|from|] in Children(t, from) && IsName(to[|from|])
    ensures from + [to[|from|]] < to + [to[|from|]]
  {
    var child := to[..|from| + 1];
    PrefixesExist(t, to, |from| + 1);
    assert child == from + [to[|from|]] && child[|from|] == to[|from|];
    assert NodeOk(t, child);
    assert (to + [to[|from|]])[..|from| + 1] == child;
  }

  lemma ListedEntry(names: seq<string>, children: set<string>, i: int)
    requires Lists(names, children) && 0 <= i < |names|
    ensures names[i] !in Elements(names[..i])
    ensures names[i] in children || names[i] == "." || names[i] == ".."
    ensures Elements(names[..i + 1]) == Elements(names[..i]) + {names[i]}
  {
    assert names[i] in names;
    assert names[..i + 1] == names[..i] + [names[i]];
  }

  lemma AllListed(t: Tree, f: Path, names: seq<string>)
    requires ValidTree(t) && Lists(names, Children(t, f))
    ensures Children(t, f) <= Elements(names)
  {
    forall n | n in Children(t, f)
      ensures n in names
    {
      ChildIsName(t, f, n);
    }
  }

  lemma DotsCopyNothing(before: Tree, f: Path, t: Path, done: set<string>, name: string)
    requires ValidTree(before) && !IsName(name)
    ensures PartlyCopied(before, f, t, done + {name}) == PartlyCopied(before, f, t, done)
  {
    forall q | q in before && f <= q && |q| > |f|
      ensures q[|f|] != name
    {
      assert NodeOk(before, q);
    }
    assert Part(before, f, done + {name}) == Part(before, f, done);
  }

  /** Copies the node at `from` and everything below it to `to`, with metadata. A complete copy
      changes nothing but what is at the places of the source's nodes and the missing ancestors of
      `to`; an interrupted one neither. The original descends without a bound; here `depth` cuts it
      off, so that a copy to a place inside its own source, which never completes, ends. */
  method CopyPath(fs: Filesystem, from: string, to: string, depth: nat, ghost f: Path, ghost t: Path)
    returns (ok: bool)
    requires ValidTree(fs.nodes) && Leads(from, f) && Leads(to, t) && AllNames(t)
    modifies fs
    ensures Grew(old(fs.nodes), fs.nodes) && (f < t ==> !ok)
    ensures Fitting(old(fs.nodes), f, t, depth) ==> Touched(old(fs.nodes), fs.nodes, f, t)
    ensures Fitting(old(fs.nodes), f, t, depth) && ok ==>
              f in old(fs.nodes) && fs.nodes == Copied(old(fs.nodes), f, t)
    ensures Fitting(old(fs.nodes), f, t, depth) && fs.Reliable() && Ready(old(fs.nodes), f, to, t) ==> ok
    decreases depth, 3
  {
    TouchedNothing(fs.nodes, f, t);
    if Ready(fs.nodes, f, to, t) {
      ReadyFits(fs.nodes, f, to, t);
      assert f in Under(fs.nodes, f);
    }
    if depth == 0 {
      return false;
    }
    var stat := fs.Lstat(from);
    if stat.None? {
      return false;
    }
    if stat.value.isSymlink {
      ok := CopyLink(fs, from, to, f, t);
    } else if stat.value.isDirectory {
      ok := CopyDirectory(fs, from, to, stat.value.meta, depth, f, t);
    } else {
      ok := CopyFile(fs, from, to, stat.value.meta, f, t);
    }
  }
}
