/**
POSIX path normalisation and the guards every filesystem call runs first. A lexical location is the
list of names from the root; `PathOf` writes it back as an absolute path.
 */
module Paths {
  import opened Core
  import opened Text

  const SLASH := '/'

  /** A name a directory entry can have. */
  predicate IsName(s: string) {
    s != [] && s != "." && s != ".." && SLASH !in s
  }

  predicate AllNames(names: seq<string>) {
    forall i :: 0 <= i < |names| ==> IsName(names[i])
  }

  function PathOf(names: seq<string>): string {
    "/" + Join(names, SLASH)
  }

  predicate IsAbsolute(path: string) {
    path != [] && path[0] == SLASH
  }

  predicate EndsWithSlash(path: string) {
    path != [] && path[|path| - 1] == SLASH
  }

  // ---------------------------------------------------------------------------
  // Lexical location
  // ---------------------------------------------------------------------------

  /** One path segment walked from a location; the root is its own parent. */
  function WalkOne(at: seq<string>, part: string): seq<string> {
    if part == "" || part == "." then at
    else if part == ".." then (if at == [] then [] else at[..|at| - 1])
    else at + [part]
  }

  function Walk(at: seq<string>, parts: seq<string>): seq<string> {
    if parts == [] then at else WalkOne(Walk(at, parts[..|parts| - 1]), parts[|parts| - 1])
  }

  /** Where `path` leads from `base`. */
  function Locate(base: seq<string>, path: string): seq<string> {
    Walk(if IsAbsolute(path) then [] else base, Split(path, SLASH))
  }

  lemma {:induction false} WalkConcat(at: seq<string>, a: seq<string>, b: seq<string>)
    ensures Walk(at, a + b) == Walk(Walk(at, a), b)
    decreases |b|
  {
    if b == [] {
      assert a + b == a;
    } else {
      assert (a + b)[..|a + b| - 1] == a + b[..|b| - 1];
      WalkConcat(at, a, b[..|b| - 1]);
    }
  }

  lemma {:induction false} WalkNames(at: seq<string>, names: seq<string>)
    requires AllNames(names)
    ensures Walk(at, names) == at + names
  {
    if names == [] {
      assert at + names == at;
    } else {
      WalkNames(at, names[..|names| - 1]);
      assert at + names == at + names[..|names| - 1] + [names[|names| - 1]];
    }
  }

  // ---------------------------------------------------------------------------
  // Normalisation
  // ---------------------------------------------------------------------------

  /** What the segment stack becomes on the next part. */
  function PushPart(segments: seq<string>, part: string, absolute: bool): seq<string> {
    if part == "" || part == "." then segments
    else if part == ".." then
      if segments != [] && segments[|segments| - 1] != ".." then segments[..|segments| - 1]
      else if absolute then segments
      else segments + [".."]
    else segments + [part]
  }

  function PushParts(segments: seq<string>, parts: seq<string>, absolute: bool): seq<string> {
    if parts == [] then segments
    else PushPart(PushParts(segments, parts[..|parts| - 1], absolute), parts[|parts| - 1], absolute)
  }

  function Assemble(segments: seq<string>, absolute: bool, trailing: bool): string {
    if segments == [] then (if absolute then "/" else ".")
    else (if absolute then "/" else "") + Join(segments, SLASH) + (if trailing then "/" else "")
  }

  function Normalize(path: string): string {
    if path == [] then "."
    else Assemble(PushParts([], Split(path, SLASH), IsAbsolute(path)), IsAbsolute(path), EndsWithSlash(path))
  }

  method PosixNormalize(path: string) returns (r: string)
    ensures r == Normalize(path)
  {
    if path == [] {
      return ".";
    }
    var absolute, trailing := IsAbsolute(path), EndsWithSlash(path);
    var segments: seq<string> := [];
    var parts := Split(path, SLASH);
    var i := 0;
    while i < |parts|
      invariant 0 <= i <= |parts|
      invariant segments == PushParts([], parts[..i], absolute)
    {
      var part := parts[i];
      assert parts[..i + 1][..i] == parts[..i];
      if part == "" || part == "." {
      } else if part == ".." {
        if segments != [] && segments[|segments| - 1] != ".." {
          segments := segments[..|segments| - 1];
        } else if !absolute {
          segments := segments + [".."];
        }
      } else {
        segments := segments + [part];
      }
      i := i + 1;
    }
    assert parts[..i] == parts;
    if segments == [] {
      return if absolute then "/" else ".";
    }
    var joined := Join(segments, SLASH);
    if trailing {
      joined := joined + "/";
    }
    r := if absolute then "/" + joined else joined;
  }

  /** Segment stacks: names behind leading `..`s, which an absolute path has none of. */
  ghost predicate Canonical(segments: seq<string>, absolute: bool) {
    && (forall i :: 0 <= i < |segments| ==> segments[i] == ".." || IsName(segments[i]))
    && (forall i, j :: 0 <= i < j < |segments| && segments[j] == ".." ==> segments[i] == "..")
    && (absolute ==> AllNames(segments))
  }

  lemma PushPartCanonical(segments: seq<string>, part: string, absolute: bool)
    requires Canonical(segments, absolute) && SLASH !in part
    ensures Canonical(PushPart(segments, part, absolute), absolute)
  {
  }

  lemma {:induction false} PushPartsCanonical(parts: seq<string>, absolute: bool)
    requires Free(parts, SLASH)
    ensures Canonical(PushParts([], parts, absolute), absolute)
  {
    if parts != [] {
      PushPartsCanonical(parts[..|parts| - 1], absolute);
      PushPartCanonical(PushParts([], parts[..|parts| - 1], absolute), parts[|parts| - 1], absolute);
    }
  }

  /** Pushing a canonical stack onto nothing rebuilds it. */
  lemma {:induction false} PushCanonical(segments: seq<string>, absolute: bool)
    requires Canonical(segments, absolute)
    ensures PushParts([], segments, absolute) == segments
  {
    if segments != [] {
      var front, last := segments[..|segments| - 1], segments[|segments| - 1];
      PushCanonical(front, absolute);
      assert segments == front + [last];
    }
  }

  lemma {:induction false} PushConcat(s: seq<string>, a: seq<string>, b: seq<string>, absolute: bool)
    ensures PushParts(s, a + b, absolute) == PushParts(PushParts(s, a, absolute), b, absolute)
    decreases |b|
  {
    if b == [] {
      assert a + b == a;
    } else {
      assert (a + b)[..|a + b| - 1] == a + b[..|b| - 1];
      PushConcat(s, a, b[..|b| - 1], absolute);
    }
  }

  function Padding(pad: bool): seq<string> {
    if pad then [""] else []
  }

  /** Joining with an empty last part adds a slash at the end. */
  lemma JoinTrailing(segments: seq<string>, trailing: bool)
    requires segments != []
    ensures Join(segments + Padding(trailing), SLASH) == Join(segments, SLASH) + (if trailing then "/" else "")
  {
    if trailing {
      JoinSnoc(segments, "", SLASH);
      assert Join(segments, SLASH) + [SLASH] + "" == Join(segments, SLASH) + "/";
    } else {
      assert segments + Padding(trailing) == segments;
    }
  }

  /** Joining with an empty first part adds a slash at the start. */
  lemma JoinLeading(inner: seq<string>, absolute: bool)
    requires inner != []
    ensures Join(Padding(absolute) + inner, SLASH) == (if absolute then "/" else "") + Join(inner, SLASH)
  {
    var parts := Padding(absolute) + inner;
    if absolute {
      assert parts[1..] == inner && parts[0] == "";
      assert "" + [SLASH] + Join(inner, SLASH) == "/" + Join(inner, SLASH);
    } else {
      assert parts == inner;
    }
  }

  /** An assembled path splits into its segments, with an empty part for each outer slash. */
  lemma AssembledParts(segments: seq<string>, absolute: bool, trailing: bool)
    requires segments != [] && Canonical(segments, absolute)
    ensures Split(Assemble(segments, absolute, trailing), SLASH) == Padding(absolute) + segments + Padding(trailing)
  {
    var inner := segments + Padding(trailing);
    var parts := Padding(absolute) + inner;
    assert parts == Padding(absolute) + segments + Padding(trailing);
    JoinTrailing(segments, trailing);
    JoinLeading(inner, absolute);
    var prefix, suffix := if absolute then "/" else "", if trailing then "/" else "";
    assert prefix + Join(segments, SLASH) + suffix == prefix + (Join(segments, SLASH) + suffix);
    assert Join(parts, SLASH) == Assemble(segments, absolute, trailing);
    SplitJoin(parts, SLASH);
  }

  lemma {:induction false} JoinEnds(segments: seq<string>)
    requires segments != [] && forall i :: 0 <= i < |segments| ==> segments[i] != [] && SLASH !in segments[i]
    ensures var j := Join(segments, SLASH); j != [] && j[0] != SLASH && j[|j| - 1] != SLASH
  {
    if |segments| > 1 {
      JoinEnds(segments[1..]);
    }
  }

  lemma AssembledShape(segments: seq<string>, absolute: bool, trailing: bool)
    requires segments != [] && Canonical(segments, absolute)
    ensures var r := Assemble(segments, absolute, trailing);
            r != [] && IsAbsolute(r) == absolute && EndsWithSlash(r) == trailing
  {
    JoinEnds(segments);
  }

  /** Assembled paths are their own normal form. */
  lemma NormalizeAssembled(segments: seq<string>, absolute: bool, trailing: bool)
    requires Canonical(segments, absolute)
    ensures Normalize(Assemble(segments, absolute, trailing)) == Assemble(segments, absolute, trailing)
  {
    if segments == [] {
      NormalizeRoots();
    } else {
      AssembledParts(segments, absolute, trailing);
      AssembledShape(segments, absolute, trailing);
      PushPadded(segments, absolute, trailing);
    }
  }

  lemma PushPadded(segments: seq<string>, absolute: bool, trailing: bool)
    requires Canonical(segments, absolute)
    ensures PushParts([], Padding(absolute) + segments + Padding(trailing), absolute) == segments
  {
    PushConcat([], Padding(absolute) + segments, Padding(trailing), absolute);
    PushConcat([], Padding(absolute), segments, absolute);
    PushBlank([], absolute, absolute);
    PushCanonical(segments, absolute);
    PushBlank(segments, trailing, absolute);
  }

  lemma PushBlank(segments: seq<string>, pad: bool, absolute: bool)
    ensures PushParts(segments, Padding(pad), absolute) == segments
  {
    if pad {
      assert Padding(pad)[..0] == [];
    }
  }

  lemma NormalizeRoots()
    ensures Normalize("/") == "/" && Normalize(".") == "."
  {
    assert Split("/", SLASH) == ["", ""] by {
      assert "/"[1..] == [];
      assert Split([], SLASH) == [[]];
    }
    PushBlank([], true, true);
    PushConcat([], [""], [""], true);
    assert [""] + [""] == ["", ""];
    assert Split(".", SLASH) == ["."] by {
      SplitFirst(".", [], SLASH);
    }
    assert ["."][..0] == [];
  }

  lemma NormalizeIdempotent(path: string)
    ensures Normalize(Normalize(path)) == Normalize(path)
  {
    if path == [] {
      NormalizeRoots();
    } else {
      SplitIsFree(path, SLASH);
      PushPartsCanonical(Split(path, SLASH), IsAbsolute(path));
      NormalizeAssembled(PushParts([], Split(path, SLASH), IsAbsolute(path)), IsAbsolute(path), EndsWithSlash(path));
    }
  }

  /** The stack leads to the same place as the parts pushed onto it. */
  lemma WalkPushPart(at: seq<string>, segments: seq<string>, part: string, absolute: bool)
    requires Canonical(segments, absolute) && (absolute ==> at == [])
    ensures Walk(at, PushPart(segments, part, absolute)) == WalkOne(Walk(at, segments), part)
  {
    if part == ".." {
      if segments == [] {
        if !absolute {
          assert ([] + [".."])[..0] == [];
        }
      } else if segments[|segments| - 1] != ".." {
        var front := segments[..|segments| - 1];
        assert Walk(at, segments) == Walk(at, front) + [segments[|segments| - 1]];
      } else {
        assert (segments + [".."])[..|segments|] == segments;
      }
    } else if part != "" && part != "." {
      assert (segments + [part])[..|segments|] == segments;
    }
  }

  lemma {:induction false} WalkPushParts(at: seq<string>, parts: seq<string>, absolute: bool)
    requires Free(parts, SLASH) && (absolute ==> at == [])
    ensures Walk(at, PushParts([], parts, absolute)) == Walk(at, parts)
  {
    if parts != [] {
      var front := parts[..|parts| - 1];
      WalkPushParts(at, front, absolute);
      PushPartsCanonical(front, absolute);
      WalkPushPart(at, PushParts([], front, absolute), parts[|parts| - 1], absolute);
    }
  }

  lemma WalkPadded(at: seq<string>, segments: seq<string>, a: bool, b: bool)
    ensures Walk(at, Padding(a) + segments + Padding(b)) == Walk(at, segments)
  {
    WalkConcat(at, Padding(a) + segments, Padding(b));
    WalkConcat(at, Padding(a), segments);
    assert [""][..0] == [];
  }

  /** Normalising a path does not change where it leads, from any base. */
  lemma NormalizeKeepsLocation(base: seq<string>, path: string)
    ensures Locate(base, Normalize(path)) == Locate(base, path)
  {
    RootLocations(base);
    if path != [] {
      var absolute, trailing := IsAbsolute(path), EndsWithSlash(path);
      var parts := Split(path, SLASH);
      var segments := PushParts([], parts, absolute);
      SplitIsFree(path, SLASH);
      PushPartsCanonical(parts, absolute);
      WalkPushParts(if absolute then [] else base, parts, absolute);
      if segments != [] {
        AssembledParts(segments, absolute, trailing);
        AssembledShape(segments, absolute, trailing);
        WalkPadded(if absolute then [] else base, segments, absolute, trailing);
      }
    }
  }

  lemma RootLocations(base: seq<string>)
    ensures Locate(base, "/") == [] && Locate(base, ".") == base && Locate(base, "") == base
  {
    assert Split("/", SLASH) == ["", ""] by {
      assert "/"[1..] == [];
      assert Split([], SLASH) == [[]];
    }
    assert ["", ""] == [""] + [] + [""];
    WalkPadded([], [], true, true);
    SplitFirst(".", [], SLASH);
    assert ["."][..0] == [] && [""][..0] == [];
    assert Walk(base, []) == base;
  }

  // ---------------------------------------------------------------------------
  // Guards
  // ---------------------------------------------------------------------------

  datatype PathError = NotAbsolute | NotNormalized | ReadOnly

  function AssertSafe(path: string): Option<PathError> {
    if !IsAbsolute(path) then Some(NotAbsolute)
    else if Normalize(path) != path then Some(NotNormalized)
    else None
  }

  predicate IsProc(path: string) {
    path == "/proc" || "/proc/" <= path
  }

  function AssertWritable(path: string): Option<PathError> {
    match AssertSafe(path)
    case Some(e) => Some(e)
    case None => if IsProc(path) then Some(ReadOnly) else None
  }

  /** The root, or names joined by single slashes, with at most one slash at the end. */
  ghost predicate WellWritten(path: string, names: seq<string>, trailing: bool) {
    AllNames(names) && path == Assemble(names, true, trailing)
  }

  /** The safe guard accepts exactly the well-written absolute paths. */
  lemma SafeGuard(path: string)
    ensures AssertSafe(path).None? <==> exists names, trailing :: WellWritten(path, names, trailing)
  {
    if AssertSafe(path).None? {
      SplitIsFree(path, SLASH);
      PushPartsCanonical(Split(path, SLASH), true);
      assert WellWritten(path, PushParts([], Split(path, SLASH), true), EndsWithSlash(path));
    }
    if names, trailing :| WellWritten(path, names, trailing) {
      WellWrittenIsSafe(path, names, trailing);
    }
  }

  lemma WellWrittenIsSafe(path: string, names: seq<string>, trailing: bool)
    requires WellWritten(path, names, trailing)
    ensures AssertSafe(path).None?
  {
    assert Canonical(names, true);
    NormalizeAssembled(names, true, trailing);
    if names != [] {
      AssembledShape(names, true, trailing);
    }
  }

  /** Beyond unsafe paths, the writable guard rejects exactly those whose first name is `proc`. */
  lemma WritableGuard(path: string, names: seq<string>, trailing: bool)
    requires WellWritten(path, names, trailing)
    ensures AssertWritable(path) == if names != [] && names[0] == "proc" then Some(ReadOnly) else None
  {
    WellWrittenIsSafe(path, names, trailing);
    ProcByName(path, names, trailing);
  }

  lemma ProcByName(path: string, names: seq<string>, trailing: bool)
    requires WellWritten(path, names, trailing)
    ensures IsProc(path) <==> names != [] && names[0] == "proc"
  {
    if names != [] {
      assert Canonical(names, true);
      AssembledParts(names, true, trailing);
      assert Split(path, SLASH)[1] == names[0];
      if path == "/proc" {
        ProcAlone();
      } else if "/proc/" <= path {
        ProcParts(path[6..]);
        assert path == "/proc" + [SLASH] + path[6..];
      }
      if names[0] == "proc" {
        FirstName(names, trailing);
      }
    }
  }

  lemma ProcParts(rest: string)
    ensures Split("/proc" + [SLASH] + rest, SLASH) == ["", "proc"] + Split(rest, SLASH)
  {
    AfterSlash("proc" + [SLASH] + rest);
    SplitFirst("proc", rest, SLASH);
    assert "/proc" + [SLASH] + rest == [SLASH] + ("proc" + [SLASH] + rest);
  }

  lemma ProcAlone()
    ensures Split("/proc", SLASH) == ["", "proc"]
  {
    AfterSlash("proc");
    assert "/proc" == [SLASH] + "proc";
    SplitFirst("proc", "", SLASH);
  }

  lemma AfterSlash(rest: string)
    ensures Split([SLASH] + rest, SLASH) == [""] + Split(rest, SLASH)
  {
    assert ([SLASH] + rest)[1..] == rest;
  }

  lemma FirstName(names: seq<string>, trailing: bool)
    requires names != []
    ensures var path, head := Assemble(names, true, trailing), "/" + names[0];
            path == head || head + "/" <= path
  {
    if |names| == 1 {
      assert Join(names, SLASH) == names[0];
      assert Assemble(names, true, trailing) == "/" + names[0] + (if trailing then "/" else "");
    } else {
      var rest := Join(names[1..], SLASH) + (if trailing then "/" else "");
      assert Assemble(names, true, trailing) == "/" + names[0] + "/" + rest;
    }
  }

  lemma PathOfIsWellWritten(names: seq<string>)
    requires AllNames(names)
    ensures WellWritten(PathOf(names), names, false)
  {
    if names != [] {
      assert Assemble(names, true, false) == "/" + Join(names, SLASH) + "";
    }
  }

  /** Every prefix of a writable path is writable. */
  lemma PrefixesWritable(names: seq<string>, k: nat)
    requires AllNames(names) && k <= |names| && (names != [] ==> names[0] != "proc")
    ensures AssertWritable(PathOf(names[..k])).None?
  {
    PathOfIsWellWritten(names[..k]);
    WritableGuard(PathOf(names[..k]), names[..k], false);
  }

  // ---------------------------------------------------------------------------
  // Parents and children
  // ---------------------------------------------------------------------------

  function LastSlash(path: string): (r: Option<nat>)
    ensures r.Some? ==> r.value < |path| && path[r.value] == SLASH && SLASH !in path[r.value + 1..]
    ensures r.None? ==> SLASH !in path
  {
    if path == [] then None
    else if path[|path| - 1] == SLASH then Some(|path| - 1)
    else LastSlash(path[..|path| - 1])
  }

  function PosixDirname(path: string): string {
    match LastSlash(path)
    case None => "."
    case Some(i) => if i == 0 then "/" else path[..i]
  }

  function JoinChild(dir: string, child: string): string {
    if dir == "/" then "/" + child else dir + "/" + child
  }

  lemma {:induction false} LastSlashBefore(a: string, b: string)
    requires SLASH !in b
    ensures LastSlash(a + [SLASH] + b) == Some(|a|)
  {
    var path := a + [SLASH] + b;
    if b == [] {
      assert path == a + [SLASH];
    } else {
      assert path[..|path| - 1] == a + [SLASH] + b[..|b| - 1];
      LastSlashBefore(a, b[..|b| - 1]);
    }
  }

  lemma JoinChildOf(names: seq<string>, name: string)
    requires AllNames(names)
    ensures JoinChild(PathOf(names), name) == PathOf(names + [name])
  {
    if names == [] {
      assert names + [name] == [name];
    } else {
      JoinEnds(names);
      JoinSnoc(names, name, SLASH);
      assert "/" + (Join(names, SLASH) + [SLASH] + name) == "/" + Join(names, SLASH) + "/" + name;
    }
  }

  lemma DirnameOf(names: seq<string>)
    requires AllNames(names) && names != []
    ensures PosixDirname(PathOf(names)) == PathOf(names[..|names| - 1])
  {
    var front, last := names[..|names| - 1], names[|names| - 1];
    assert names == front + [last];
    if front == [] {
      assert PathOf(names) == "" + [SLASH] + last;
      LastSlashBefore("", last);
    } else {
      JoinSnoc(front, last, SLASH);
      assert PathOf(names) == PathOf(front) + [SLASH] + last;
      DirnameBefore(PathOf(front), last);
    }
  }

  lemma DirnameBefore(a: string, b: string)
    requires a != [] && SLASH !in b
    ensures PosixDirname(a + [SLASH] + b) == a
  {
    LastSlashBefore(a, b);
    assert (a + [SLASH] + b)[..|a|] == a;
  }

  /** The location the kernel resolves a path string to. */
  function KernelPath(path: string): seq<string> {
    Walk([], Split(path, SLASH))
  }

  lemma KernelPathOf(path: string, names: seq<string>, trailing: bool)
    requires WellWritten(path, names, trailing)
    ensures KernelPath(path) == names
  {
    if names == [] {
      RootLocations([]);
    } else {
      assert Canonical(names, true);
      AssembledParts(names, true, trailing);
      WalkPadded([], names, true, trailing);
      WalkNames([], names);
      assert [] + names == names;
    }
  }

  /** `path` is written with slashes and names only, and leads to `names`. Runs of slashes are
      allowed: joining a child to a path with a trailing slash makes one. */
  ghost predicate Leads(path: string, names: seq<string>) {
    && IsAbsolute(path)
    && (forall part :: part in Split(path, SLASH) ==> part == "" || IsName(part))
    && KernelPath(path) == names
  }

  lemma SplitSnoc(a: string, b: string)
    requires SLASH !in b
    ensures Split(a + [SLASH] + b, SLASH) == Split(a, SLASH) + [b]
  {
    var parts := Split(a, SLASH);
    JoinSplit(a, SLASH);
    SplitIsFree(a, SLASH);
    JoinSnoc(parts, b, SLASH);
    SplitJoin(parts + [b], SLASH);
  }

  lemma WellWrittenLeads(path: string, names: seq<string>, trailing: bool)
    requires WellWritten(path, names, trailing)
    ensures Leads(path, names)
  {
    KernelPathOf(path, names, trailing);
    if names == [] {
      SplitFirst("", "", SLASH);
      assert path == "" + [SLASH] + "";
    } else {
      AssembledShape(names, true, trailing);
      AssembledParts(names, true, trailing);
    }
  }

  /** What the safe guard passes leads to the location the kernel resolves it to. */
  lemma SafeLeads(path: string)
    requires AssertSafe(path).None?
    ensures Leads(path, KernelPath(path)) && AllNames(KernelPath(path))
  {
    SafeGuard(path);
    var names, trailing :| WellWritten(path, names, trailing);
    WellWrittenLeads(path, names, trailing);
  }

  lemma SlashedLeads(dir: string, names: seq<string>, name: string)
    requires Leads(dir, names) && IsName(name)
    ensures Leads(dir + "/" + name, names + [name])
  {
    var path := dir + [SLASH] + name;
    SplitSnoc(dir, name);
    assert Split(path, SLASH)[..|Split(dir, SLASH)|] == Split(dir, SLASH);
  }

  lemma JoinChildLeads(dir: string, names: seq<string>, name: string)
    requires Leads(dir, names) && IsName(name)
    ensures Leads(JoinChild(dir, name), names + [name])
  {
    if dir == "/" {
      SplitSnoc("", name);
      RootLocations([]);
      assert "/" + name == "" + [SLASH] + name;
      assert Split("", SLASH) == [""];
      assert ["", name][..1] == [""];
      assert Walk([], [""]) == [];
    } else {
      SlashedLeads(dir, names, name);
    }
  }

  /** The part before the last slash leads to the parent, or to the same place when the path ends
      in a slash. */
  lemma DirnameLeads(path: string, names: seq<string>)
    requires Leads(path, names)
    ensures names == [] ==> EndsWithSlash(path)
    ensures KernelPath(PosixDirname(path)) == if EndsWithSlash(path) then names else names[..|names| - 1]
  {
    var i := LastSlash(path).value;
    var last := path[i + 1..];
    assert path == path[..i] + [SLASH] + last;
    SplitSnoc(path[..i], last);
    var parts := Split(path, SLASH);
    assert parts[..|parts| - 1] == Split(path[..i], SLASH) && parts[|parts| - 1] == last;
    RootLocations([]);
    assert KernelPath(path[..i]) == KernelPath(PosixDirname(path)) by {
      if i == 0 {
        assert path[..i] == "";
      }
    }
    var at := KernelPath(path[..i]);
    assert last == "" <==> EndsWithSlash(path);
    assert names == WalkOne(at, last) && last in parts;
    assert (at + [last])[..|at|] == at;
  }
}
