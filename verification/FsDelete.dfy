/**
Deleting a file, a directory or a whole tree, in trees that may hold links. The type test and the
listing follow links, the removal does not, so a link to a directory has that directory's contents
deleted and then stops the delete.
 */
module FsDelete {
  import opened Core
  import opened Text
  import opened Paths
  import opened Kernel
  import opened Links
  import opened FsOps

  /** `now` is `t` without some nodes at or below `p`. */
  ghost predicate ShrankAt(t: Tree, now: Tree, p: Path) {
    Shrank(t, now) && forall q :: q in t && q !in now ==> p <= q
  }

  /** What lies below the children in `done`. */
  function Below(t: Tree, p: Path, done: set<string>): set<Path> {
    set q | q in t && p <= q && |q| > |p| && q[|p|] in done
  }

  lemma BelowGrows(t: Tree, p: Path, done: set<string>, name: string)
    ensures Below(t, p, done + {name}) == Below(t, p, done) + Under(t, p + [name])
  {
    forall q | q in t
      ensures p + [name] <= q <==> p <= q && |q| > |p| && q[|p|] == name
    {
      if p <= q && |q| > |p| {
        assert q[..|p| + 1] == p + [q[|p|]];
      }
    }
  }

  lemma FirstBelow(t: Tree, p: Path, q: Path)
    requires ValidTree(t) && q in t && p <= q && |q| > |p|
    ensures q[|p|] in Children(t, p)
  {
    PrefixesExist(t, q, |p| + 1);
    assert p <= q[..|p| + 1] && q[..|p| + 1][|p|] == q[|p|];
  }

  lemma UnderOther(t: Tree, p: Path, done: set<string>, name: string)
    requires name !in done
    ensures Under(t - Below(t, p, done), p + [name]) == Under(t, p + [name])
  {
    forall q | q in t && p + [name] <= q
      ensures q !in Below(t, p, done)
    {
      assert q[|p|] == (p + [name])[|p|];
    }
  }

  /** Removing a leaf. */
  lemma RemoveShrinks(t: Tree, p: Path)
    requires ValidTree(t) && p in t && p != [] && Children(t, p) == {}
    ensures ShrankAt(t, t - {p}, p) && Under(t, p) == {p}
  {
    forall q | q in t && p <= q
      ensures q == p
    {
      if |q| > |p| {
        FirstBelow(t, p, q);
      }
    }
    RemoveKeepsValid(t, p);
  }

  lemma FileHasNoChildren(t: Tree, p: Path)
    requires ValidTree(t) && p in t && !t[p].Directory?
    ensures Children(t, p) == {} && p != []
  {
    forall q | q in t && |q| == |p| + 1
      ensures !(p <= q)
    {
      assert p <= q ==> Parent(q) == p;
      assert NodeOk(t, q);
    }
  }

  /** The loop has removed everything below the children in `done`. */
  ghost predicate Emptied(before: Tree, now: Tree, p: Path, done: set<string>) {
    ValidTree(now) && now == before - Below(before, p, done)
  }

  lemma ChildGone(before: Tree, now: Tree, now': Tree, p: Path, done: set<string>, name: string)
    requires Emptied(before, now, p, done) && name !in done
    requires ValidTree(now') && now' == now - Under(now, p + [name])
    ensures Emptied(before, now', p, done + {name})
  {
    UnderOther(before, p, done, name);
    BelowGrows(before, p, done, name);
  }

  lemma DotsDeleteNothing(before: Tree, now: Tree, p: Path, done: set<string>, name: string)
    requires ValidTree(before) && !IsName(name) && Emptied(before, now, p, done)
    ensures Emptied(before, now, p, done + {name})
  {
    forall q | q in before && p <= q && |q| > |p|
      ensures q[|p|] != name
    {
      assert NodeOk(before, q);
    }
    assert Below(before, p, done + {name}) == Below(before, p, done);
  }

  lemma AllGone(before: Tree, now: Tree, p: Path, done: set<string>)
    requires ValidTree(before) && p in before && Children(before, p) <= done && Emptied(before, now, p, done)
    ensures p in now && now[p] == before[p] && now - {p} == before - Under(before, p)
  {
    forall q | q in before && p <= q && |q| > |p|
      ensures q[|p|] in done
    {
      FirstBelow(before, p, q);
    }
    forall q | q in before && p <= q && |q| == |p|
      ensures q == p
    {
      assert q[..|p|] == q;
    }
    assert Below(before, p, done) + {p} == Under(before, p);
  }

  lemma ChildPasses(p: Path, name: string)
    requires AllNames(p + [name])
    ensures p != [] ==> PathOf(p) + "/" + name == PathOf(p + [name])
    ensures AssertSafe(PathOf(p + [name])).None?
  {
    assert forall i :: 0 <= i < |p| ==> p[i] == (p + [name])[i];
    PathOfIsWellWritten(p + [name]);
    WellWrittenIsSafe(PathOf(p + [name]), p + [name], false);
    if p != [] {
      JoinEnds(p);
      JoinChildOf(p, name);
    }
  }

  lemma NoneLeft(before: Tree, now: Tree, p: Path)
    requires now - {p} == before - Under(before, p)
    ensures Children(now, p) == {}
  {
    forall q | q in now && |q| == |p| + 1
      ensures !(p <= q)
    {
      assert q in now - {p};
    }
  }


  // ---------------------------------------------------------------------------
  // Where a delete can reach
  // ---------------------------------------------------------------------------

  /** The link at `q` does not lead to a directory with something in it outside `top`. */
  ghost predicate StaysIn(t: Tree, q: Path, top: Path) {
    var directory := DirectoryAt(t, q);
    directory.Some? ==> top <= directory.value || Children(t, directory.value) == {}
  }

  /** No link at or below `top` leads out. */
  ghost predicate Contained(t: Tree, top: Path) {
    forall q :: q in t && top <= q && t[q].Symlink? ==> StaysIn(t, q, top)
  }

  /** The node `p` names, if any, is at or below `top`. */
  ghost predicate NamesInside(t: Tree, p: Path, top: Path) {
    var place := Resolve(t, p, false, 0);
    place.Some? && place.value.at in t ==> top <= place.value.at
  }

  lemma ContainedShrinks(t: Tree, now: Tree, top: Path)
    requires ValidTree(t) && Shrank(t, now) && Contained(t, top)
    ensures Contained(now, top)
  {
    forall q | q in now && top <= q && now[q].Symlink?
      ensures StaysIn(now, q, top)
    {
      if DirectoryAt(now, q).Some? {
        ResolveShrinks(t, now, q, true, 0);
        assert StaysIn(t, q, top);
        FewerChildren(t, now, DirectoryAt(now, q).value);
      }
    }
  }

  lemma FewerChildren(t: Tree, now: Tree, p: Path)
    requires Shrank(t, now)
    ensures Children(now, p) <= Children(t, p) && Under(now, p) <= Under(t, p)
  {
  }

  /** A listing goes on inside `top`, unless there is nothing to list. */
  lemma ListsInside(t: Tree, p: Path, top: Path)
    requires ValidTree(t) && Contained(t, top) && NamesInside(t, p, top) && DirectoryAt(t, p).Some?
    ensures top <= DirectoryAt(t, p).value || Children(t, DirectoryAt(t, p).value) == {}
  {
    ExactPlace(t, p);
    var at := Resolve(t, p, false, 0).value.at;
    if t[at].Symlink? {
      assert StaysIn(t, at, top);
    }
  }

  /** What names a directory names a node: that directory, or a link that leads to it. */
  lemma ExactPlace(t: Tree, p: Path)
    requires ValidTree(t) && DirectoryAt(t, p).Some?
    ensures Resolve(t, p, false, 0).Some?
    ensures var place := Resolve(t, p, false, 0).value;
            && place.at in t && DirectoryAt(t, place.at) == DirectoryAt(t, p)
            && (!t[place.at].Symlink? ==> place.at == DirectoryAt(t, p).value)
  {
    NamesSomething(t, p, 0);
    GoOn(t, p, 0);
    var place := Resolve(t, p, false, 0).value;
    FewerLinks(t, place.at, true, place.links, 0);
    if !t[place.at].Symlink? {
      LinksGrow(t, p, false, 0);
      LeadsToItself(t, place.at, place.links);
    }
  }

  lemma {:induction false} NamesSomething(t: Tree, p: Path, links: nat)
    requires ValidTree(t) && Resolve(t, p, true, links).Some? && Resolve(t, p, true, links).value.at in t
    ensures Resolve(t, p, false, links).Some? && Resolve(t, p, false, links).value.at in t
    decreases MAX_LINKS + 1 - links
  {
    var k := FirstOther(t, p, 0);
    assert p[..|p|] == p;
    if k < |p| && t[p[..k]].Symlink? {
      NamesSomething(t, Locate(Parent(p[..k]), t[p[..k]].target) + p[k..], links + 1);
    }
  }

  /** What an entry names once the tree has shrunk is in the directory that was listed. */
  lemma EntryInside(t: Tree, now: Tree, p: Path, name: string, top: Path)
    requires ValidTree(t) && Shrank(t, now) && DirectoryAt(t, p).Some? && top <= DirectoryAt(t, p).value
    ensures NamesInside(now, p + [name], top)
  {
    var place := Resolve(now, p + [name], false, 0);
    if place.Some? && place.value.at in now {
      ResolveShrinks(t, now, p + [name], false, 0);
      EntryPlace(t, p, name, 0);
      assert DirectoryAt(t, p).value <= place.value.at;
    }
  }

  // ---------------------------------------------------------------------------
  // It ends
  // ---------------------------------------------------------------------------

  /** `h` bounds the links still to be followed from `p` on, `n` the nodes below until the next one. */
  ghost predicate Bounded(t: Tree, p: Path, h: nat, n: nat) {
    DirectoryAt(t, p).Some? ==>
      MAX_LINKS - Resolve(t, p, true, 0).value.links <= h && |Under(t, DirectoryAt(t, p).value)| <= n
  }

  /** Going into an entry uses up a link or leaves fewer nodes below. */
  lemma EntryBounded(t: Tree, now: Tree, p: Path, name: string, h: nat, n: nat) returns (h': nat, n': nat)
    requires ValidTree(t) && Shrank(t, now) && DirectoryAt(t, p).Some? && Bounded(t, p, h, n)
    ensures Bounded(now, p + [name], h', n') && (h' < h || (h' == h && n' < n))
  {
    var r := DirectoryAt(t, p).value;
    UnderSome(t, r);
    h', n' := h, n - 1;
    var directory := DirectoryAt(now, p + [name]);
    if directory.Some? {
      ResolveShrinks(t, now, p + [name], true, 0);
      EntryPlace(t, p, name, 0);
      GoOn(t, p + [name], 0);
      var place := Resolve(t, p + [name], false, 0).value;
      LinksGrow(t, place.at, true, place.links);
      NamesSomething(t, p + [name], 0);
      if t[place.at].Symlink? {
        FollowedOne(t, place.at, place.links);
        h', n' := h - 1, |Under(now, directory.value)|;
      } else {
        LeadsToItself(t, place.at, place.links);
        FewerChildren(t, now, directory.value);
        SmallerSet(Under(now, directory.value), Under(t, directory.value));
        ChildSmaller(t, r, name);
      }
    }
  }

  lemma UnderSome(t: Tree, r: Path)
    requires r in t
    ensures |Under(t, r)| > 0
  {
    assert r in Under(t, r);
  }

  lemma FollowedOne(t: Tree, p: Path, links: nat)
    requires ValidTree(t) && p in t && t[p].Symlink? && Resolve(t, p, true, links).Some?
    ensures Resolve(t, p, true, links).value.links > links
  {
    assert p[..|p|] == p;
    FirstOtherIs(t, p, |p|);
    LinksGrow(t, Locate(Parent(p), t[p].target) + p[|p|..], true, links + 1);
  }

  // ---------------------------------------------------------------------------
  // The calls
  // ---------------------------------------------------------------------------

  /** The call that removes one node: what the path names, a link itself and not where it leads. */
  method RemoveNode(fs: Filesystem, path: string, directory: bool, ghost p: Path) returns (ok: bool)
    requires ValidTree(fs.nodes) && KernelPath(path) == p
    modifies fs
    ensures Shrank(old(fs.nodes), fs.nodes)
    ensures forall q :: q in old(fs.nodes) && q !in fs.nodes ==>
              Resolve(old(fs.nodes), p, false, 0).Some? && q == Resolve(old(fs.nodes), p, false, 0).value.at
    ensures ok ==> Resolve(old(fs.nodes), p, false, 0).Some?
                   && Removed(old(fs.nodes), fs.nodes, Resolve(old(fs.nodes), p, false, 0).value.at, directory)
    ensures var place := Resolve(old(fs.nodes), p, false, 0);
            fs.Reliable() && place.Some? && Removable(old(fs.nodes), place.value.at, directory) ==> ok
  {
    ghost var before := fs.nodes;
    ghost var place := Resolve(before, p, false, 0);
    if place.Some? && place.value.at in before {
      RemoveOne(before, place.value.at);
    }
    if directory {
      ok := fs.RemoveDir(path);
    } else {
      ok := fs.RemoveFile(path);
    }
  }

  ghost predicate Removable(t: Tree, p: Path, directory: bool) {
    p in t && t[p].Directory? == directory && p != [] && Children(t, p) == {}
  }

  ghost predicate Removed(t: Tree, now: Tree, p: Path, directory: bool) {
    Removable(t, p, directory) && now == t - {p} && Under(t, p) == {p}
  }

  lemma RemoveOne(t: Tree, p: Path)
    requires ValidTree(t) && p in t
    ensures p != [] && Children(t, p) == {} ==> Shrank(t, t - {p}) && Under(t, p) == {p}
    ensures !t[p].Directory? ==> p != [] && Children(t, p) == {}
  {
    if !t[p].Directory? {
      FileHasNoChildren(t, p);
    }
    if p != [] && Children(t, p) == {} {
      RemoveShrinks(t, p);
    }
  }

  /** Of a directory reached by its own path, or holding no links, each entry goes as a whole. */
  ghost predicate Tidy(t: Tree, p: Path)
    requires DirectoryAt(t, p).Some?
  {
    p == DirectoryAt(t, p).value || NoLinksUnder(t, DirectoryAt(t, p).value)
  }

  /** The node `p` names is named by its own path, or holds no links. */
  ghost predicate Steady(t: Tree, p: Path) {
    var place := Resolve(t, p, false, 0);
    place.Some? && place.value.at in t && (place.value.at == p || NoLinksUnder(t, place.value.at))
  }

  ghost predicate ListsWithin(t: Tree, p: Path, top: Path)
    requires DirectoryAt(t, p).Some?
  {
    Contained(t, top) && (top <= DirectoryAt(t, p).value || Children(t, DirectoryAt(t, p).value) == {})
  }

  ghost predicate Kept(before: Tree, now: Tree, p: Path, top: Path)
    requires DirectoryAt(before, p).Some?
  {
    Shrank(before, now) && (ListsWithin(before, p, top) ==> ShrankAt(before, now, top))
  }

  lemma EntrySteady(before: Tree, now: Tree, p: Path, done: set<string>, name: string)
    requires ValidTree(before) && DirectoryAt(before, p).Some? && Tidy(before, p)
    requires Emptied(before, now, DirectoryAt(before, p).value, done)
    requires name !in done && name in Children(before, DirectoryAt(before, p).value)
    ensures var r := DirectoryAt(before, p).value;
            && Resolve(now, p + [name], false, 0).Some? && Resolve(now, p + [name], false, 0).value.at == r + [name]
            && Steady(now, p + [name]) && (NoLinksUnder(before, r) ==> NoLinksUnder(now, r + [name]))
  {
    var r := DirectoryAt(before, p).value;
    ChildIsName(before, r, name);
    UnderOther(before, r, done, name);
    assert r + [name] in Under(before, r + [name]);
    if NoLinksUnder(before, r) {
      NoLinksFurther(before, now, r, name);
    }
    if p == r {
      LeadsToItself(now, p + [name], 0);
    } else {
      LinksStay(before, now, p, true, 0);
      RootStays(before, now, r, done);
      EntryPlace(now, p, name, 0);
    }
  }

  lemma NoLinksFurther(t: Tree, now: Tree, r: Path, name: string)
    requires Shrank(t, now) && NoLinksUnder(t, r)
    ensures NoLinksUnder(now, r + [name])
  {
    assert r <= r + [name];
  }

  lemma RootStays(before: Tree, now: Tree, r: Path, done: set<string>)
    requires IsDirectory(before, r) && Emptied(before, now, r, done)
    ensures IsDirectory(now, r)
  {
  }

  lemma KeptFurther(before: Tree, now: Tree, later: Tree, p: Path, top: Path)
    requires DirectoryAt(before, p).Some? && Kept(before, now, p, top) && Shrank(now, later)
    requires ListsWithin(before, p, top) ==> ShrankAt(now, later, top)
    ensures Kept(before, later, p, top)
  {
  }

  // ---------------------------------------------------------------------------
  // A link that leads out
  // ---------------------------------------------------------------------------

  /** `link` is the only link at or below `p`, and there are none where it leads. */
  ghost predicate OneLink(t: Tree, p: Path, link: Path) {
    && p in t && link in t && t[link].Symlink? && p <= link
    && (forall q :: q in t && p <= q && t[q].Symlink? ==> q == link)
    && (DirectoryAt(t, link).Some? ==> NoLinksUnder(t, DirectoryAt(t, link).value))
  }

  ghost predicate Trap(t: Tree, p: Path, link: Path) {
    OneLink(t, p, link) && DirectoryAt(t, link).Some? && !(p <= DirectoryAt(t, link).value)
  }

  /** Everything below `d` is gone. */
  ghost predicate Lost(t: Tree, now: Tree, d: Path) {
    forall q :: q in t && d < q ==> q !in now
  }

  lemma TrapEntry(before: Tree, now: Tree, p: Path, done: set<string>, name: string, link: Path)
    requires ValidTree(before) && IsDirectory(before, p) && Trap(before, p, link) && Emptied(before, now, p, done)
    requires p < link && link[|p|] !in done && name !in done && name in Children(before, p)
    ensures p + [name] <= link ==> Trap(now, p + [name], link) && DirectoryAt(now, link) == DirectoryAt(before, link)
    ensures !(p + [name] <= link) ==> NoLinksUnder(now, p + [name])
  {
    assert p <= p + [name];
    if p + [name] <= link {
      ChildIsName(before, p, name);
      UnderOther(before, p, done, name);
      assert p + [name] in Under(before, p + [name]) && link in Under(before, p + [name]);
      TrapStays(before, now, p, done, link);
      OutsideChild(p, name, DirectoryAt(before, link).value);
    }
  }

  lemma OutsideChild(p: Path, name: string, d: Path)
    requires !(p <= d)
    ensures !(p + [name] <= d)
  {
    assert forall i :: 0 <= i < |p| ==> (p + [name])[i] == p[i];
  }

  lemma TrapStays(before: Tree, now: Tree, p: Path, done: set<string>, link: Path)
    requires ValidTree(before) && Trap(before, p, link) && Emptied(before, now, p, done) && link in now
    ensures DirectoryAt(now, link) == DirectoryAt(before, link)
    ensures NoLinksUnder(now, DirectoryAt(before, link).value)
  {
    forall q | q in before && before[q].Symlink?
      ensures q in now
    {
      assert q in Below(before, p, done) ==> q == link;
    }
    LinksStay(before, now, link, true, 0);
  }

  lemma TrapNames(t: Tree, p: Path, link: Path)
    requires ValidTree(t) && p < link && link in t
    ensures link[|p|] in Children(t, p) && p + [link[|p|]] <= link
    ensures forall name :: p + [name] <= link ==> name == link[|p|]
  {
    FirstBelow(t, p, link);
    assert link[..|p| + 1] == p + [link[|p|]];
    forall name | p + [name] <= link
      ensures name == link[|p|]
    {
      assert (p + [name])[|p|] == link[|p|];
    }
  }

  // ---------------------------------------------------------------------------
  // delete
  // ---------------------------------------------------------------------------

  /** The path is spelled so that the guard passes every path the delete makes of it. */
  ghost predicate Spelled(path: string, p: Path) {
    p != [] && AllNames(p) && path == PathOf(p)
  }

  method DeleteChild(fs: Filesystem, path: string, entry: string, ghost before: Tree, ghost p: Path,
                     ghost done: set<string>, ghost top: Path, ghost link: Path, ghost h: nat, ghost n: nat)
    returns (ok: bool)
    requires ValidTree(before) && Leads(path, p) && DirectoryAt(before, p).Some? && Bounded(before, p, h, n)
    requires Kept(before, fs.nodes, p, top)
    requires Tidy(before, p) ==> Emptied(before, fs.nodes, DirectoryAt(before, p).value, done)
    requires entry !in done
    requires entry in Children(before, DirectoryAt(before, p).value) || entry == "." || entry == ".."
    modifies fs
    ensures Kept(before, fs.nodes, p, top)
    ensures ok && Tidy(before, p) ==> Emptied(before, fs.nodes, DirectoryAt(before, p).value, done + {entry})
    ensures fs.Reliable() && Spelled(path, p) && NoLinksUnder(before, DirectoryAt(before, p).value) ==> ok
    ensures fs.Reliable() && Spelled(path, p) && Springs(before, p, link, done) ==>
              if p + [entry] <= link then !ok && Lost(before, fs.nodes, DirectoryAt(before, link).value) else ok
    decreases h, n, 0
  {
    ghost var now, r := fs.nodes, DirectoryAt(before, p).value;
    if entry == "." || entry == ".." {
      if Tidy(before, p) {
        DotsDeleteNothing(before, now, r, done, entry);
      }
      if Springs(before, p, link, done) {
        DotsAreNoNames(before, p, entry, link);
      }
      return true;
    }
    var child := path + "/" + entry;
    ChildIsName(before, r, entry);
    if AssertSafe(child).Some? {
      if Spelled(path, p) {
        ChildPasses(p, entry);
      }
      return false;
    }
    SlashedLeads(path, p, entry);
    ghost var h', n' := EntryBounded(before, now, p, entry, h, n);
    EntryReady(before, now, path, p, done, entry, top, link);
    ok := DeleteInner(fs, child, true, p + [entry], top, link, h', n');
    KeptFurther(before, now, fs.nodes, p, top);
    if ok && Tidy(before, p) {
      ChildGone(before, now, fs.nodes, r, done, entry);
    }
  }

  /** A link below the directory `p` that leads out, its entry not visited yet. */
  ghost predicate Springs(before: Tree, p: Path, link: Path, done: set<string>) {
    IsDirectory(before, p) && p < link && Trap(before, p, link) && link[|p|] !in done
  }

  lemma DotsAreNoNames(before: Tree, p: Path, entry: string, link: Path)
    requires ValidTree(before) && p < link && link in before && !IsName(entry)
    ensures !(p + [entry] <= link)
  {
    TrapNames(before, p, link);
    ChildIsName(before, p, link[|p|]);
  }

  /** What the delete of one entry needs and is told. */
  lemma EntryReady(before: Tree, now: Tree, path: string, p: Path, done: set<string>, name: string, top: Path,
                   link: Path)
    requires ValidTree(before) && DirectoryAt(before, p).Some? && Kept(before, now, p, top)
    requires Tidy(before, p) ==> Emptied(before, now, DirectoryAt(before, p).value, done)
    requires name !in done && name in Children(before, DirectoryAt(before, p).value)
    ensures ListsWithin(before, p, top) ==> Contained(now, top) && NamesInside(now, p + [name], top)
    ensures Tidy(before, p) ==>
              && Steady(now, p + [name])
              && Resolve(now, p + [name], false, 0).value.at == DirectoryAt(before, p).value + [name]
    ensures Spelled(path, p) ==> Spelled(path + "/" + name, p + [name])
    ensures Spelled(path, p) && NoLinksUnder(before, DirectoryAt(before, p).value) ==>
              Deletable(now, path + "/" + name, p + [name], true)
    ensures Spelled(path, p) && Springs(before, p, link, done) ==>
              if p + [name] <= link
              then Trap(now, p + [name], link) && DirectoryAt(now, link) == DirectoryAt(before, link)
              else Deletable(now, path + "/" + name, p + [name], true)
  {
    var r := DirectoryAt(before, p).value;
    if ListsWithin(before, p, top) {
      ContainedShrinks(before, now, top);
      EntryInside(before, now, p, name, top);
    }
    if Spelled(path, p) {
      ChildIsName(before, r, name);
      SpelledFurther(path, p, name);
    }
    if Tidy(before, p) {
      EntrySteady(before, now, p, done, name);
    }
    if Springs(before, p, link, done) {
      LeadsToItself(before, p, 0);
      TrapEntry(before, now, p, done, name, link);
      EntrySteady(before, now, p, done, name);
    }
  }

  lemma SpelledFurther(path: string, p: Path, name: string)
    requires Spelled(path, p) && IsName(name)
    ensures Spelled(path + "/" + name, p + [name])
  {
    JoinEnds(p);
    JoinChildOf(p, name);
  }

  method DeleteChildren(fs: Filesystem, path: string, names: seq<string>, ghost p: Path, ghost top: Path,
                        ghost link: Path, ghost h: nat, ghost n: nat)
    returns (ok: bool)
    requires ValidTree(fs.nodes) && Leads(path, p) && DirectoryAt(fs.nodes, p).Some? && Bounded(fs.nodes, p, h, n)
    requires Lists(names, Children(fs.nodes, DirectoryAt(fs.nodes, p).value))
    modifies fs
    ensures Kept(old(fs.nodes), fs.nodes, p, top)
    ensures ok && Tidy(old(fs.nodes), p) ==>
              OnlyRootLeft(old(fs.nodes), fs.nodes, DirectoryAt(old(fs.nodes), p).value)
    ensures var r := DirectoryAt(old(fs.nodes), p).value;
            fs.Reliable() && Spelled(path, p) && NoLinksUnder(old(fs.nodes), r) ==> ok
    ensures fs.Reliable() && Spelled(path, p) && Springs(old(fs.nodes), p, link, {}) ==>
              !ok && Lost(old(fs.nodes), fs.nodes, DirectoryAt(old(fs.nodes), link).value)
    decreases h, n, 1
  {
    ghost var before := fs.nodes;
    ghost var r := DirectoryAt(before, p).value;
    ghost var done: set<string> := {};
    var i := 0;
    while i < |names|
      invariant 0 <= i <= |names| && done == Elements(names[..i])
      invariant Kept(before, fs.nodes, p, top)
      invariant Tidy(before, p) ==> Emptied(before, fs.nodes, r, done)
      invariant fs.Reliable() && Spelled(path, p) && Springs(before, p, link, {}) ==> Springs(before, p, link, done)
    {
      ListedEntry(names, Children(before, r), i);
      if p < link && link in before {
        TrapNames(before, p, link);
      }
      ok := DeleteChild(fs, path, names[i], before, p, done, top, link, h, n);
      if !ok {
        return;
      }
      done := done + {names[i]};
      i := i + 1;
    }
    assert names[..i] == names;
    AllListed(before, r, names);
    if Springs(before, p, link, done) {
      LeadsToItself(before, p, 0);
      TrapNames(before, p, link);
    }
    if Tidy(before, p) {
      AllGone(before, fs.nodes, r, done);
    }
    ok := true;
  }

  ghost predicate OnlyRootLeft(t: Tree, now: Tree, r: Path) {
    r in t && r in now && now[r] == t[r] && now - {r} == t - Under(t, r)
  }

  /** What a delete finds no reason to refuse. */
  ghost predicate Deletable(t: Tree, path: string, p: Path, recursive: bool) {
    var place := Resolve(t, p, false, 0);
    && Spelled(path, p) && place.Some? && place.value.at in t && place.value.at != []
    && NoLinksUnder(t, place.value.at) && (recursive || Children(t, place.value.at) == {})
  }

  /** Deletes a file, a link, an empty directory, or with `recursive` a whole tree from the leaves up. */
  method DeleteInner(fs: Filesystem, path: string, recursive: bool, ghost p: Path, ghost top: Path, ghost link: Path,
                     ghost h: nat, ghost n: nat)
    returns (ok: bool)
    requires ValidTree(fs.nodes) && Leads(path, p) && Bounded(fs.nodes, p, h, n)
    modifies fs
    ensures Shrank(old(fs.nodes), fs.nodes)
    ensures Contained(old(fs.nodes), top) && NamesInside(old(fs.nodes), p, top) ==>
              ShrankAt(old(fs.nodes), fs.nodes, top)
    ensures ok && Steady(old(fs.nodes), p) ==> Gone(old(fs.nodes), fs.nodes, p)
    ensures !recursive ==> OneAtMost(old(fs.nodes), fs.nodes, p)
    ensures fs.Reliable() && Deletable(old(fs.nodes), path, p, recursive) ==> ok
    ensures fs.Reliable() && recursive && Spelled(path, p) && Trap(old(fs.nodes), p, link) ==>
              !ok && Lost(old(fs.nodes), fs.nodes, DirectoryAt(old(fs.nodes), link).value)
    decreases h, n, 3
  {
    ghost var before := fs.nodes;
    var directory;
    ok, directory := EmptyFirst(fs, path, recursive, p, top, link, h, n);
    if !ok {
      return;
    }
    ok := RemoveEmptied(fs, path, recursive, directory, before, p, top);
  }

  /** The last call, after the entries are gone. */
  method RemoveEmptied(fs: Filesystem, path: string, recursive: bool, directory: bool,
                       ghost before: Tree, ghost p: Path, ghost top: Path)
    returns (ok: bool)
    requires ValidTree(before) && Shrank(before, fs.nodes) && KernelPath(path) == p
    requires LeftAlone(before, fs.nodes, p, directory, recursive)
    modifies fs
    ensures Shrank(before, fs.nodes)
    ensures NamesInside(before, p, top) && ShrankAt(before, old(fs.nodes), top) ==> ShrankAt(before, fs.nodes, top)
    ensures ok && Steady(before, p) ==> Gone(before, fs.nodes, p)
    ensures !recursive ==> OneAtMost(before, fs.nodes, p)
    ensures Deletable(before, path, p, recursive) ==>
              fs.Reliable() && directory == before[Resolve(before, p, false, 0).value.at].Directory? ==> ok
    ensures Trap(before, p, p) && directory && recursive ==> !ok && Lost(before, fs.nodes, DirectoryAt(before, p).value)
  {
    ghost var emptied := fs.nodes;
    SamePlace(before, emptied, p);
    if Deletable(before, path, p, recursive) {
      ReadyToGo(before, emptied, path, p, recursive, directory);
    }
    if Trap(before, p, p) && directory && recursive {
      LinkRemains(before, emptied, p);
    }
    ok := RemoveNode(fs, path, directory, p);
    if ok && Steady(before, p) {
      AllRemoved(before, emptied, fs.nodes, p, directory, recursive);
    }
  }

  /** What is left for the removal: the node alone, as far as its entries are known to go as a whole. */
  ghost predicate LeftAlone(before: Tree, emptied: Tree, p: Path, directory: bool, recursive: bool) {
    if directory && recursive
    then DirectoryAt(before, p).Some?
         && (Tidy(before, p) ==> OnlyRootLeft(before, emptied, DirectoryAt(before, p).value))
    else emptied == before
  }

  /** The type test, and the entries of a directory if they are to go too. */
  method EmptyFirst(fs: Filesystem, path: string, recursive: bool, ghost p: Path, ghost top: Path, ghost link: Path,
                    ghost h: nat, ghost n: nat)
    returns (ok: bool, directory: bool)
    requires ValidTree(fs.nodes) && Leads(path, p) && Bounded(fs.nodes, p, h, n)
    modifies fs
    ensures Shrank(old(fs.nodes), fs.nodes) && (!recursive ==> fs.nodes == old(fs.nodes))
    ensures Contained(old(fs.nodes), top) && NamesInside(old(fs.nodes), p, top) ==>
              ShrankAt(old(fs.nodes), fs.nodes, top)
    ensures ok ==> LeftAlone(old(fs.nodes), fs.nodes, p, directory, recursive)
    ensures fs.Reliable() && Deletable(old(fs.nodes), path, p, recursive) ==>
              ok && directory == old(fs.nodes)[Resolve(old(fs.nodes), p, false, 0).value.at].Directory?
    ensures fs.Reliable() && recursive && Spelled(path, p) && Trap(old(fs.nodes), p, link) ==>
              if p == link then ok && directory
              else !ok && Lost(old(fs.nodes), fs.nodes, DirectoryAt(old(fs.nodes), link).value)
    decreases h, n, 2
  {
    ghost var before := fs.nodes;
    if Deletable(before, path, p, recursive) {
      DeletableIsSeen(before, path, p, recursive);
    }
    if Trap(before, p, link) {
      TrapIsSeen(before, p, link);
    }
    var stat := fs.StatPath(path);
    if stat.None? {
      return false, false;
    }
    ok, directory := true, stat.value.isDirectory;
    if directory && recursive {
      if Contained(before, top) && NamesInside(before, p, top) {
        ListsInside(before, p, top);
      }
      var entries := fs.ReadDir(path);
      if entries.None? {
        return false, true;
      }
      ok := DeleteChildren(fs, path, entries.value, p, top, link, h, n);
    }
  }

  /** The node `p` named and everything below it is gone, and nothing else. */
  ghost predicate Gone(t: Tree, now: Tree, p: Path) {
    var place := Resolve(t, p, false, 0);
    place.Some? && place.value.at in t && place.value.at != [] && now == t - Under(t, place.value.at)
  }

  ghost predicate OneAtMost(t: Tree, now: Tree, p: Path) {
    forall q :: q in t && q !in now ==> Resolve(t, p, false, 0).Some? && q == Resolve(t, p, false, 0).value.at
  }

  lemma SamePlace(before: Tree, now: Tree, p: Path)
    requires ValidTree(before) && Shrank(before, now)
    ensures var place := Resolve(now, p, false, 0);
            place.Some? && place.value.at in now ==> Resolve(before, p, false, 0) == place
  {
    var place := Resolve(now, p, false, 0);
    if place.Some? && place.value.at in now {
      ResolveShrinks(before, now, p, false, 0);
    }
  }

  lemma DeletableIsSeen(t: Tree, path: string, p: Path, recursive: bool)
    requires ValidTree(t) && Deletable(t, path, p, recursive)
    ensures var at := Resolve(t, p, false, 0).value.at;
            && StatAt(t, p) == Some(StatOf(t[at])) && !t[at].Symlink?
            && (t[at].Directory? ==> DirectoryAt(t, p) == Some(at))
  {
    var place := Resolve(t, p, false, 0).value;
    assert !t[place.at].Symlink?;
    GoOn(t, p, 0);
    LinksGrow(t, p, false, 0);
    LeadsToItself(t, place.at, place.links);
  }

  /** Once what is below it is gone, the node itself can go. */
  lemma ReadyToGo(before: Tree, emptied: Tree, path: string, p: Path, recursive: bool, directory: bool)
    requires ValidTree(before) && Shrank(before, emptied) && Deletable(before, path, p, recursive)
    requires LeftAlone(before, emptied, p, directory, recursive)
    ensures var place := Resolve(before, p, false, 0);
            directory == before[place.value.at].Directory? ==>
              Resolve(emptied, p, false, 0) == place && Removable(emptied, place.value.at, directory)
  {
    var at := Resolve(before, p, false, 0).value.at;
    DeletableIsSeen(before, path, p, recursive);
    if directory != before[at].Directory? {
    } else if directory && recursive {
      NoneLeft(before, emptied, at);
      OnlyBelowGone(before, emptied, at);
      LinksStay(before, emptied, p, false, 0);
    } else if !before[at].Directory? {
      FileHasNoChildren(before, at);
    }
  }

  lemma OnlyBelowGone(t: Tree, now: Tree, r: Path)
    requires OnlyRootLeft(t, now, r)
    ensures forall q :: q in t && q !in now ==> r < q
  {
    forall q | q in t && q !in now
      ensures r < q
    {
      assert q !in now - {r};
      assert q in Under(t, r);
      assert |q| == |r| ==> q == r;
    }
  }

  lemma AllRemoved(before: Tree, emptied: Tree, now: Tree, p: Path, directory: bool, recursive: bool)
    requires ValidTree(before) && Shrank(before, emptied) && Steady(before, p)
    requires Resolve(emptied, p, false, 0).Some?
    requires Removed(emptied, now, Resolve(emptied, p, false, 0).value.at, directory)
    requires LeftAlone(before, emptied, p, directory, recursive)
    ensures Gone(before, now, p)
  {
    SamePlace(before, emptied, p);
    if directory && recursive {
      ExactPlace(before, p);
    }
  }

  /** Nothing below where the link leads is left, and the link is still there. */
  lemma LinkRemains(before: Tree, emptied: Tree, link: Path)
    requires ValidTree(before) && Shrank(before, emptied) && Trap(before, link, link)
    requires LeftAlone(before, emptied, link, true, true)
    ensures Resolve(emptied, link, false, 0) == Some(Place(link, 0)) && link in emptied && emptied[link].Symlink?
    ensures Lost(before, emptied, DirectoryAt(before, link).value)
  {
    var d := DirectoryAt(before, link).value;
    assert link in before - Under(before, d);
    assert link in emptied - {d};
    LeadsToItself(emptied, link, 0);
    forall q | q in before && d < q
      ensures q !in emptied
    {
      assert q in Under(before, d);
      assert q !in emptied - {d};
    }
  }

  lemma TrapIsSeen(t: Tree, p: Path, link: Path)
    requires ValidTree(t) && Trap(t, p, link)
    ensures DirectoryAt(t, p).Some? && StatAt(t, p).Some? && StatAt(t, p).value.isDirectory
    ensures p == link ==> NoLinksUnder(t, DirectoryAt(t, p).value) && Tidy(t, p)
    ensures p != link ==> p < link && Springs(t, p, link, {}) && DirectoryAt(t, p) == Some(p)
  {
    if p != link {
      assert |p| < |link| by {
        assert link[..|p|] == p;
      }
      PrefixesExist(t, link, |p|);
      assert link[..|p|] == p;
      LeadsToItself(t, p, 0);
    }
  }

  /** The delete of a path. With a link in the tree that leads to a directory elsewhere it does not stay
      in the tree. */
  method Delete(fs: Filesystem, path: string, recursive: bool, ghost link: Path) returns (ok: bool)
    requires ValidTree(fs.nodes)
    modifies fs
    ensures Shrank(old(fs.nodes), fs.nodes)
    ensures AssertSafe(path).Some? ==> !ok && fs.nodes == old(fs.nodes)
    ensures var place := Resolve(old(fs.nodes), KernelPath(path), false, 0);
            place.Some? && Contained(old(fs.nodes), place.value.at) ==>
              ShrankAt(old(fs.nodes), fs.nodes, place.value.at)
    ensures ok && Steady(old(fs.nodes), KernelPath(path)) ==> Gone(old(fs.nodes), fs.nodes, KernelPath(path))
    ensures !recursive ==> OneAtMost(old(fs.nodes), fs.nodes, KernelPath(path))
    ensures AssertSafe(path).None? && fs.Reliable() ==>
              Deletable(old(fs.nodes), path, KernelPath(path), recursive) ==> ok
    ensures AssertSafe(path).None? && fs.Reliable() && recursive && Spelled(path, KernelPath(path)) ==>
              OneLink(old(fs.nodes), KernelPath(path), link) ==>
                (ShrankAt(old(fs.nodes), fs.nodes, KernelPath(path)) <==>
                 StaysIn(old(fs.nodes), link, KernelPath(path)))
  {
    ghost var before, p := fs.nodes, KernelPath(path);
    if AssertSafe(path).Some? {
      return false;
    }
    SafeLeads(path);
    ghost var top, n := Bounds(before, p);
    ok := DeleteInner(fs, path, recursive, p, top, link, MAX_LINKS, n);
    if OneLink(before, p, link) {
      LeadsToItself(before, p, 0);
      StaysExactly(before, fs.nodes, p, link);
    }
  }

  lemma Bounds(t: Tree, p: Path) returns (top: Path, n: nat)
    ensures Bounded(t, p, MAX_LINKS, n) && NamesInside(t, p, top)
    ensures Resolve(t, p, false, 0).Some? ==> top == Resolve(t, p, false, 0).value.at
  {
    var place, directory := Resolve(t, p, false, 0), DirectoryAt(t, p);
    top := if place.Some? then place.value.at else p;
    n := if directory.Some? then |Under(t, directory.value)| else 0;
  }

  lemma StaysExactly(before: Tree, now: Tree, p: Path, link: Path)
    requires ValidTree(before) && OneLink(before, p, link) && Shrank(before, now)
    ensures StaysIn(before, link, p) ==> Contained(before, p)
    ensures !StaysIn(before, link, p) ==> Trap(before, p, link)
    ensures !StaysIn(before, link, p) && Lost(before, now, DirectoryAt(before, link).value) ==>
              !ShrankAt(before, now, p)
  {
    if !StaysIn(before, link, p) && Lost(before, now, DirectoryAt(before, link).value) {
      var d := DirectoryAt(before, link).value;
      var name :| name in Children(before, d);
      ChildIsName(before, d, name);
      assert d < d + [name];
      NotAbove(p, d, name, link);
    }
  }

  lemma NotAbove(p: Path, d: Path, name: string, link: Path)
    requires !(p <= d) && p <= link && !(d <= link)
    ensures !(p <= d + [name])
  {
    assert forall i :: 0 <= i < |d| ==> (d + [name])[i] == d[i];
  }

  /** A link whose target is a directory leads there. */
  lemma LinkLeads(t: Tree, link: Path, d: Path)
    requires ValidTree(t) && link in t && t[link].Symlink? && IsDirectory(t, d)
    requires Locate(Parent(link), t[link].target) == d
    ensures DirectoryAt(t, link) == Some(d)
  {
    assert link[..|link|] == link && d + link[|link|..] == d;
    FirstOtherIs(t, link, |link|);
    LeadsToItself(t, d, 1);
  }

  /** There is such a tree: what is in `/b` is deleted with `/a`. */
  lemma LinkOut() returns (t: Tree, p: Path, link: Path)
    ensures ValidTree(t) && OneLink(t, p, link) && !StaysIn(t, link, p)
  {
    var d, name;
    t, p, link, d, name := ExampleTree();
    LinkLeads(t, link, d);
    HasEntry(t, d, name);
    OnlyLinkAt(t, link, d);
  }

  lemma OnlyLinkAt(t: Tree, link: Path, d: Path)
    requires (forall q :: q in t && t[q].Symlink? ==> q == link) && !(d <= link)
    ensures NoLinksUnder(t, d)
  {
  }

  lemma HasEntry(t: Tree, p: Path, name: string)
    requires p + [name] in t
    ensures name in Children(t, p)
  {
    var q := p + [name];
    assert |q| == |p| + 1 && p <= q && q[|p|] == name;
  }

  lemma RootedName(base: Path)
    ensures Locate(base, "/b") == ["b"]
  {
    AfterSlash("b");
    assert "/b" == [SLASH] + "b";
    SplitFirst("b", "", SLASH);
    assert ["", "b"][..1] == [""] && [""][..0] == [];
    assert Walk([], [""]) == [];
    assert Split("/b", SLASH) == ["", "b"];
  }

  /** `/a`, the link `/a/l` to `/b`, and the file `/b/f`. */
  lemma ExampleTree() returns (t: Tree, p: Path, link: Path, d: Path, name: string)
    ensures ValidTree(t) && p in t && p <= link && !(p <= d) && !(d <= link) && IsDirectory(t, d) && d + [name] in t
    ensures link in t && t[link].Symlink? && Locate(Parent(link), t[link].target) == d
    ensures forall q :: q in t && t[q].Symlink? ==> q == link
  {
    p, link, d, name := ["a"], ["a", "l"], ["b"], "f";
    assert [] + ["a"] == p && p + ["l"] == link && [] + ["b"] == d && p[0][0] != d[0][0];
    t := map[[] := NEW_DIRECTORY];
    t := WithNode(t, [], "a", NEW_DIRECTORY);
    t := WithNode(t, p, "l", Symlink("/b"));
    t := WithNode(t, [], "b", NEW_DIRECTORY);
    assert (d + [name])[0] == d[0];
    t := WithNode(t, d, name, File([], NEW_FILE_META));
    RootedName(Parent(link));
  }

  lemma WithNode(t: Tree, p: Path, name: string, n: Node) returns (r: Tree)
    requires ValidTree(t) && IsDirectory(t, p) && p + [name] !in t && IsName(name) && GoodNode(n)
    ensures ValidTree(r) && r == t[p + [name] := n]
  {
    assert NodeOk(t, p) && Parent(p + [name]) == p;
    SetKeepsValid(t, p + [name], n);
    r := t[p + [name] := n];
  }
}
