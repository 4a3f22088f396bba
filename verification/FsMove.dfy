/**
Moving a file, a link or a tree. A directory is moved by copying it and then deleting the original, so
a failure can strike between any two kernel calls.
 */
module FsMove {
  import opened Paths
  import opened Kernel
  import opened FsOps
  import opened FsDelete

  // ---------------------------------------------------------------------------
  // move
  // ---------------------------------------------------------------------------

  /** The tree after a complete move: a directory is copied and then deleted, anything else renamed. */
  function Outcome(t: Tree, from: Path, to: Path): Tree
    requires from in t
  {
    if t[from].Directory? then Copied(t, from, to) - Under(t, from)
    else if from == to then t
    else (t - {from})[to := t[from]]
  }

  ghost predicate Intact(t: Tree, now: Tree, from: Path) {
    forall q :: q in t && from <= q ==> q in now && now[q] == t[q]
  }

  ghost predicate Duplicated(t: Tree, now: Tree, from: Path, to: Path) {
    forall q :: q in t && from <= q ==> Moved(q, from, to) in now && now[Moved(q, from, to)] == t[q]
  }

  /** The place of some node of the source lies in the source. */
  ghost predicate Overlaps(t: Tree, from: Path, to: Path) {
    exists q :: q in t && from <= q && from <= Moved(q, from, to)
  }

  /** Some directory of the source would be copied onto a file. */
  ghost predicate Flattens(t: Tree, from: Path, to: Path) {
    exists q :: q in t && from <= q && t[q].Directory? && Moved(q, from, to) in t && t[Moved(q, from, to)].File?
  }

  /** The targets to which a directory can be moved without loss. */
  ghost predicate Harmless(t: Tree, from: Path, to: Path) {
    !Overlaps(t, from, to) && !Flattens(t, from, to)
  }

  /** What holds however a move ends: outside the source only the places of its nodes change, nothing
      else appears but directories on the way to `to`, and what is still at the source is as it was. */
  ghost predicate Framed(t: Tree, now: Tree, from: Path, to: Path) {
    && ValidTree(now)
    && (forall p :: p in t && !(from <= p) ==> p in now && (now[p] == t[p] || MayChange(t, from, to, p)))
    && (forall p :: p in t && from <= p && p in now ==> now[p] == t[p])
    && (forall p :: p in now && p !in t ==> InImage(t, from, to, p) || (p <= to && now[p] == NEW_DIRECTORY))
  }

  /** A copy, complete or not, leaves the source whole. */
  lemma CopyConserves(t: Tree, now: Tree, from: Path, to: Path)
    requires CanCopy(t, from, to) && Touched(t, now, from, to) && from in t
    ensures Framed(t, now, from, to) && Intact(t, now, from)
  {
    SourceIntact(t, now, from, to);
  }

  /** Only a target at or above the source can overlap it, and it does exactly when the part of the
      source's path below the target is found once more below the source. */
  lemma OverlapsExactly(t: Tree, from: Path, to: Path)
    requires ValidTree(t) && from in t && (from <= to ==> from == to)
    ensures Overlaps(t, from, to) <==> to <= from && from + from[|to|..] in t
  {
    if to <= from && from + from[|to|..] in t {
      var q := from + from[|to|..];
      assert q[|from|..] == from[|to|..];
      assert Moved(q, from, to) == from;
      assert from <= q;
    }
    if Overlaps(t, from, to) {
      var q :| q in t && from <= q && from <= Moved(q, from, to);
      OverlapAbove(t, from, to, q);
    }
  }

  lemma OverlapAbove(t: Tree, from: Path, to: Path, q: Path)
    requires ValidTree(t) && q in t && from <= q && from <= Moved(q, from, to) && (from <= to ==> from == to)
    ensures to <= from && from + from[|to|..] in t
  {
    var m := Moved(q, from, to);
    assert to <= m;
    PrefixesCompare(from, to, m);
    var n := 2 * |from| - |to|;
    assert |q| >= n;
    assert from == m[..|from|];
    assert from[|to|..] == q[|from|..n];
    assert q[..n] == from + from[|to|..];
    PrefixesExist(t, q, n);
  }

  /** A place that is free and not inside the source can be copied to and loses nothing. */
  lemma FreeIsHarmless(t: Tree, from: Path, to: Path)
    requires ValidTree(t) && from in t && to !in t && !(from <= to)
    ensures Harmless(t, from, to) && SourceSafe(t, from, to) && Fits(t, from, to) && NoLinksUnder(t, to)
  {
    NothingUnder(t, to);
    assert !(to <= from);
    OverlapsExactly(t, from, to);
  }

  lemma NothingUnder(t: Tree, to: Path)
    requires ValidTree(t) && to !in t
    ensures forall q :: q in t ==> !(to <= q)
  {
    forall q | q in t
      ensures !(to <= q)
    {
      if to <= q {
        assert q[..|to|] == to;
        PrefixesExist(t, q, |to|);
      }
    }
  }

  lemma CopyIsWhole(t: Tree, from: Path, to: Path, q: Path)
    requires q in t && from <= q
    ensures var m := Moved(q, from, to);
            m in Copied(t, from, to) && Copied(t, from, to)[m] == Placed(t, t[q], m)
  {
    RelocatedHas(t, Under(t, from), from, to, q);
  }

  /** Deleting the original, wholly or in part, takes nothing from a harmless copy. */
  lemma DeleteConserves(t: Tree, copied: Tree, now: Tree, from: Path, to: Path)
    requires CanCopy(t, from, to) && from in t
    requires Touched(t, copied, from, to) && copied == Copied(t, from, to) && ShrankAt(copied, now, from)
    ensures Framed(t, now, from, to)
    ensures Harmless(t, from, to) ==> Duplicated(t, now, from, to)
  {
    SourceIntact(t, copied, from, to);
    if Harmless(t, from, to) {
      forall q | q in t && from <= q
        ensures Moved(q, from, to) in now && now[Moved(q, from, to)] == t[q]
      {
        CopyIsWhole(t, from, to, q);
        assert !(from <= Moved(q, from, to));
      }
    }
  }

  /** A directory that was moved completely is whole at its target exactly when the move was harmless. */
  lemma MovedExactly(t: Tree, from: Path, to: Path)
    requires CanCopy(t, from, to) && from in t && t[from].Directory?
    ensures Duplicated(t, Outcome(t, from, to), from, to) <==> Harmless(t, from, to)
  {
    var now := Outcome(t, from, to);
    forall q | q in t && from <= q
      ensures Moved(q, from, to) in now && now[Moved(q, from, to)] == t[q] <==>
              !(from <= Moved(q, from, to))
              && !(t[q].Directory? && Moved(q, from, to) in t && t[Moved(q, from, to)].File?)
    {
      CopyIsWhole(t, from, to, q);
      if from <= Moved(q, from, to) {
        assert Moved(q, from, to) in Under(t, from);
      }
    }
  }

  lemma OutcomeIs(t: Tree, copied: Tree, from: Path, to: Path)
    requires CanCopy(t, from, to) && from in t && t[from].Directory?
    requires Touched(t, copied, from, to) && copied == Copied(t, from, to)
    ensures copied - Under(copied, from) == Outcome(t, from, to) && Under(Outcome(t, from, to), from) == {}
  {
    SourceIntact(t, copied, from, to);
  }

  /** Moving a directory onto itself copies it onto itself and then deletes it. */
  lemma OntoItselfLoses(t: Tree, from: Path)
    requires ValidTree(t) && from in t && from != [] && t[from].Directory? && NoLinksUnder(t, from)
    ensures CanCopy(t, from, from) && Fits(t, from, from)
    ensures Outcome(t, from, from) == t - Under(t, from)
    ensures !Intact(t, Outcome(t, from, from), from) && !Duplicated(t, Outcome(t, from, from), from, from)
  {
    assert NodeOk(t, from);
    DirectoriesAbove(t, from);
    SafeUnlessAbove(t, from, from);
    forall q | q in t && from <= q
      ensures Moved(q, from, from) == q
    {
      MovedBack(q, from, from);
    }
    assert Copied(t, from, from) == t by {
      NothingAbove(t, from);
      SelfRelocated(t, from);
    }
    assert from in Under(t, from);
  }

  lemma SelfRelocated(t: Tree, from: Path)
    ensures t + Relocated(t, Under(t, from), from, from) == t
  {
    var r := Relocated(t, Under(t, from), from, from);
    forall p | p in r
      ensures p in t && r[p] == t[p]
    {
      RelocatedAt(t, Under(t, from), from, from, p);
      assert Moved(p, from, from) == p;
    }
  }

  // A rename replaces a file, a link or an empty directory.

  lemma RenameValid(t: Tree, from: Path, to: Path)
    requires ValidTree(t) && from in t && !t[from].Directory? && AllNames(to) && to != [] && to != from
    requires IsDirectory(t, Parent(to)) && (to in t ==> Children(t, to) == {})
    ensures ValidTree((t - {from})[to := t[from]])
  {
    FileHasNoChildren(t, from);
    RemoveShrinks(t, from);
    var rest := t - {from};
    if to in rest {
      assert Children(rest, to) == {};
      RemoveShrinks(rest, to);
      rest := rest - {to};
    }
    assert NodeOk(t, from);
    SetKeepsValid(rest, to, t[from]);
    assert (t - {from})[to := t[from]] == rest[to := t[from]];
  }

  lemma OnlyNode(t: Tree, from: Path)
    requires ValidTree(t) && from in t && !t[from].Directory?
    ensures forall q :: q in t && from <= q ==> q == from
  {
    FileHasNoChildren(t, from);
    RemoveShrinks(t, from);
    assert forall q :: q in t && from <= q ==> q in Under(t, from);
  }

  lemma RenameMoves(t: Tree, from: Path, to: Path)
    requires ValidTree(t) && from in t && !t[from].Directory? && AllNames(to)
    ensures var effect := RenameEffect(t, from, to);
            effect.Some? ==> effect.value == Outcome(t, from, to) && Framed(t, effect.value, from, to)
                             && Duplicated(t, effect.value, from, to)
  {
    OnlyNode(t, from);
    assert Moved(from, from, to) == to && Moved(to, to, from) == from;
    if from != to && RenameEffect(t, from, to).Some? {
      if to in t && !t[to].Directory? {
        FileHasNoChildren(t, to);
      }
      RenameValid(t, from, to);
    }
  }

  /** What a move finds no reason to refuse: no trailing slashes, and a place the copy or the rename
      can be made at. */
  ghost predicate Movable(t: Tree, from: string, to: string, f: Path, names: Path) {
    && AssertSafe(from).None? && AssertSafe(to).None?
    && f in t && from == PathOf(f)
    && if t[f].Directory? then f != [] && NoLinksUnder(t, f) && Ready(t, f, to, names)
       else RenameEffect(t, f, names).Some?
  }

  /** A directory can be copied in full; anything else needs nothing. */
  ghost predicate CanMove(t: Tree, from: Path, to: Path, depth: nat) {
    IsDirectory(t, from) ==> Fitting(t, from, to, depth)
  }

  /** After the copy no link in the source leads out of it, so that deleting it stays inside. */
  ghost predicate DeletesInside(t: Tree, from: Path, to: Path) {
    IsDirectory(t, from) ==> Contained(Copied(t, from, to), from)
  }

  /** A source without links is one of these. */
  lemma LinkFreeDeletesInside(t: Tree, from: Path, to: Path)
    requires NoLinksUnder(t, from)
    ensures DeletesInside(t, from, to)
  {
    WithDirectoriesIs(t, Parent(to));
    var copied := Copied(t, from, to);
    forall q | q in copied && from <= q
      ensures !copied[q].Symlink?
    {
      if q in Relocated(t, Under(t, from), from, to) {
        RelocatedAt(t, Under(t, from), from, to, q);
      }
    }
  }

  /** What a move leaves behind, complete or not. */
  ghost predicate MoveEnds(t: Tree, now: Tree, from: Path, to: Path, ok: bool) {
    && (ok || DeletesInside(t, from, to) ==> Framed(t, now, from, to) && Conserved(t, now, from, to))
    && (ok ==> from in t && now == Outcome(t, from, to))
    && (ok && IsDirectory(t, from) ==>
          Under(now, from) == {} && (Duplicated(t, now, from, to) <==> Harmless(t, from, to)))
  }

  /** A tree that is moved harmlessly, or is no directory, is whole at one of its two places. */
  ghost predicate Conserved(t: Tree, now: Tree, from: Path, to: Path) {
    (IsDirectory(t, from) ==> Harmless(t, from, to)) ==> Intact(t, now, from) || Duplicated(t, now, from, to)
  }

  /** Moves a node or a whole tree. `depth` cuts off the copy, as in `CopyPath`. */
  method MovePath(fs: Filesystem, from: string, to: string, depth: nat) returns (ok: bool)
    requires ValidTree(fs.nodes)
    modifies fs
    ensures AssertSafe(from).Some? || AssertSafe(to).Some? ==> !ok && fs.nodes == old(fs.nodes)
    ensures ValidTree(fs.nodes)
    ensures KernelPath(from) < KernelPath(to) ==> !ok && Grew(old(fs.nodes), fs.nodes)
    ensures CanMove(old(fs.nodes), KernelPath(from), KernelPath(to), depth) ==>
              MoveEnds(old(fs.nodes), fs.nodes, KernelPath(from), KernelPath(to), ok)
    ensures CanMove(old(fs.nodes), KernelPath(from), KernelPath(to), depth) ==>
              fs.Reliable() && Movable(old(fs.nodes), from, to, KernelPath(from), KernelPath(to)) ==> ok
  {
    ghost var before, f, t := fs.nodes, KernelPath(from), KernelPath(to);
    if AssertSafe(from).Some? || AssertSafe(to).Some? {
      return false;
    }
    var stat := fs.Lstat(from);
    if stat.None? {
      return false;
    }
    SafeLeads(from);
    SafeLeads(to);
    if !stat.value.isDirectory || stat.value.isSymlink {
      RenameMoves(before, f, t);
      ok := fs.Rename(from, to);
      return;
    }
    ok := MoveDirectory(fs, from, to, depth, f, t);
  }

  method MoveDirectory(fs: Filesystem, from: string, to: string, depth: nat, ghost f: Path, ghost t: Path)
    returns (ok: bool)
    requires ValidTree(fs.nodes) && IsDirectory(fs.nodes, f) && Leads(from, f) && Leads(to, t) && AllNames(t)
    requires AssertSafe(from).None?
    modifies fs
    ensures ValidTree(fs.nodes) && (f < t ==> !ok && Grew(old(fs.nodes), fs.nodes))
    ensures Fitting(old(fs.nodes), f, t, depth) ==> MoveEnds(old(fs.nodes), fs.nodes, f, t, ok)
    ensures Fitting(old(fs.nodes), f, t, depth) && Ready(old(fs.nodes), f, to, t) ==>
              fs.Reliable() && f != [] && from == PathOf(f) && NoLinksUnder(old(fs.nodes), f) ==> ok
  {
    ghost var before := fs.nodes;
    ok := CopyPath(fs, from, to, depth, f, t);
    if Fitting(before, f, t, depth) {
      CopyConserves(before, fs.nodes, f, t);
    }
    if ok {
      ok := DeleteOriginal(fs, from, depth, before, f, t);
    }
  }

  /** The second half of the move of a directory. */
  method DeleteOriginal(fs: Filesystem, from: string, ghost depth: nat, ghost before: Tree, ghost f: Path,
                        ghost t: Path)
    returns (ok: bool)
    requires ValidTree(fs.nodes) && IsDirectory(before, f) && KernelPath(from) == f && AssertSafe(from).None?
    requires Fitting(before, f, t, depth) ==> Touched(before, fs.nodes, f, t) && fs.nodes == Copied(before, f, t)
    modifies fs
    ensures ValidTree(fs.nodes)
    ensures Fitting(before, f, t, depth) ==> MoveEnds(before, fs.nodes, f, t, ok)
    ensures Fitting(before, f, t, depth) ==>
              fs.Reliable() && f != [] && from == PathOf(f) && NoLinksUnder(before, f) ==> ok
  {
    ghost var copied := fs.nodes;
    if Fitting(before, f, t, depth) {
      SourceIntact(before, copied, f, t);
      LeadsToItself(copied, f, 0);
      OutcomeIs(before, copied, f, t);
      MovedExactly(before, f, t);
      if NoLinksUnder(before, f) {
        NoLinksStay(before, copied, f, t);
      }
    }
    ok := Delete(fs, from, true, f);
    if Fitting(before, f, t, depth) && ShrankAt(copied, fs.nodes, f) {
      DeleteConserves(before, copied, fs.nodes, f, t);
    }
  }

  lemma NoLinksStay(t: Tree, now: Tree, from: Path, to: Path)
    requires CanCopy(t, from, to) && Touched(t, now, from, to) && from in t && NoLinksUnder(t, from)
    ensures NoLinksUnder(now, from)
  {
    SourceIntact(t, now, from, to);
    forall q | q in now && from <= q
      ensures !now[q].Symlink?
    {
      assert q in Under(now, from);
    }
  }
}
