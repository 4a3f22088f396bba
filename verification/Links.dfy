/** What becomes of where paths lead when a tree loses nodes, and where the entries of a directory are. */
module Links {
  import opened Core
  import opened Paths
  import opened Kernel

  /** `now` is `t` without some nodes. */
  ghost predicate Shrank(t: Tree, now: Tree) {
    ValidTree(now) && forall q :: q in now ==> q in t && now[q] == t[q]
  }

  lemma {:induction false} LinksGrow(t: Tree, p: Path, follow: bool, links: nat)
    requires Resolve(t, p, follow, links).Some?
    ensures links <= Resolve(t, p, follow, links).value.links <= MAX_LINKS
    decreases MAX_LINKS + 1 - links
  {
    var k := FirstOther(t, p, 0);
    if k <= |p| && t[p[..k]].Symlink? && (k < |p| || follow) {
      LinksGrow(t, Locate(Parent(p[..k]), t[p[..k]].target) + p[k..], follow, links + 1);
    }
  }

  /** A path that still leads to something leads where it led before. */
  lemma {:induction false} ResolveShrinks(t: Tree, now: Tree, p: Path, follow: bool, links: nat)
    requires ValidTree(t) && Shrank(t, now)
    requires Resolve(now, p, follow, links).Some? && Resolve(now, p, follow, links).value.at in now
    ensures Resolve(t, p, follow, links) == Resolve(now, p, follow, links)
    decreases MAX_LINKS + 1 - links
  {
    var k := FirstOther(now, p, 0);
    if k > |p| {
      assert p[..|p|] == p;
      NoOther(t, p);
    } else {
      FirstOtherIs(t, p, k);
      if t[p[..k]].Symlink? && (k < |p| || follow) {
        ResolveShrinks(t, now, Locate(Parent(p[..k]), t[p[..k]].target) + p[k..], follow, links + 1);
      }
    }
  }

  /** As long as no link goes, a path leads where it led before. */
  lemma {:induction false} LinksStay(t: Tree, now: Tree, p: Path, follow: bool, links: nat)
    requires ValidTree(t) && Shrank(t, now) && (forall q :: q in t && t[q].Symlink? ==> q in now)
    requires Resolve(t, p, follow, links).Some?
    ensures Resolve(now, p, follow, links) == Resolve(t, p, follow, links)
    decreases MAX_LINKS + 1 - links
  {
    var k := FirstOther(t, p, 0);
    var j := FirstOther(now, p, 0);
    if j <= |p| {
      FirstOtherIs(t, p, j);
    }
    if k <= |p| && t[p[..k]].Symlink? {
      FirstOtherIs(now, p, k);
      if k < |p| || follow {
        LinksStay(t, now, Locate(Parent(p[..k]), t[p[..k]].target) + p[k..], follow, links + 1);
      }
    }
  }

  /** To follow a link at the end of a path is to go on from that link. */
  lemma {:induction false} GoOn(t: Tree, p: Path, links: nat)
    requires Resolve(t, p, false, links).Some?
    ensures var place := Resolve(t, p, false, links).value;
            Resolve(t, p, true, links) == Resolve(t, place.at, true, place.links)
    decreases MAX_LINKS + 1 - links
  {
    var k := FirstOther(t, p, 0);
    if k < |p| && t[p[..k]].Symlink? {
      GoOn(t, Locate(Parent(p[..k]), t[p[..k]].target) + p[k..], links + 1);
    }
  }

  /** With links to spare a path leads to the same place. */
  lemma {:induction false} FewerLinks(t: Tree, p: Path, follow: bool, links: nat, fewer: nat)
    requires fewer <= links && Resolve(t, p, follow, links).Some?
    ensures Resolve(t, p, follow, fewer).Some?
    ensures var place := Resolve(t, p, follow, links).value;
            && Resolve(t, p, follow, fewer).value.at == place.at
            && Resolve(t, p, follow, fewer).value.links == place.links - (links - fewer)
    decreases MAX_LINKS + 1 - links
  {
    LinksGrow(t, p, follow, links);
    var k := FirstOther(t, p, 0);
    if k <= |p| && t[p[..k]].Symlink? && (k < |p| || follow) {
      var next := Locate(Parent(p[..k]), t[p[..k]].target) + p[k..];
      LinksGrow(t, next, follow, links + 1);
      FewerLinks(t, next, follow, links + 1, fewer + 1);
    }
  }

  /** An entry of a directory is found in the directory the path leads to. */
  lemma {:induction false} EntryPlace(t: Tree, p: Path, name: string, links: nat)
    requires ValidTree(t) && Resolve(t, p, true, links).Some? && IsDirectory(t, Resolve(t, p, true, links).value.at)
    ensures var place := Resolve(t, p, true, links).value;
            Resolve(t, p + [name], false, links) == Some(Place(place.at + [name], place.links))
    decreases MAX_LINKS + 1 - links
  {
    var k := FirstOther(t, p, 0);
    var q := p + [name];
    if k <= |p| {
      assert q[..k] == p[..k];
      FirstOtherIs(t, q, k);
      if t[p[..k]].Symlink? {
        var next := Locate(Parent(p[..k]), t[p[..k]].target);
        assert next + q[k..] == (next + p[k..]) + [name];
        EntryPlace(t, next + p[k..], name, links + 1);
      }
    } else {
      BelowDirectory(t, p, name);
    }
  }

  lemma BelowDirectory(t: Tree, p: Path, name: string)
    requires ValidTree(t) && IsDirectory(t, p)
    ensures FirstOther(t, p + [name], 0) > |p|
  {
    var q := p + [name];
    var r := FirstOther(t, q, 0);
    if r <= |p| {
      assert q[..r] == p[..r];
      NoOther(t, p);
    }
  }
}
