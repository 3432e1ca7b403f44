/**
 Typed file and folder paths that hang off a root, and the lexical check that keeps navigation
 inside it. A path buffer is the sequence of components that `Path::components` yields.
 */
module Paths {
  import opened Common

  datatype Component = Normal(name: string) | ParentDir | CurDir | RootDir | Prefix(text: string)

  type PathBuf = seq<Component>

  datatype PathError = EscapesRootPath

  datatype FilePath = FilePath(rel: PathBuf, root: PathBuf, full: PathBuf)

  datatype FolderPath = FolderPath(rel: PathBuf, root: PathBuf, full: PathBuf)

  predicate IsAbsolute(p: PathBuf) {
    p != [] && (p[0].RootDir? || p[0].Prefix?)
  }

  /** `Path::join`: an absolute right-hand side replaces the left one. */
  function Join(a: PathBuf, b: PathBuf): PathBuf {
    if IsAbsolute(b) || a == [] then b
    else if b != [] && b[0].CurDir? then a + b[1..]
    else a + b
  }

  /** `Path::parent`: None at a root and for the empty path. */
  function Parent(p: PathBuf): Option<PathBuf> {
    if p == [] || p[|p| - 1].RootDir? || p[|p| - 1].Prefix? then None else Some(p[..|p| - 1])
  }

  function BuildFile(root: PathBuf, rel: PathBuf): FilePath {
    FilePath(rel, root, Join(root, rel))
  }

  function BuildFolder(root: PathBuf, rel: PathBuf): FolderPath {
    FolderPath(rel, root, Join(root, rel))
  }

  function IntoChildFile(folder: FolderPath, name: PathBuf): FilePath {
    FilePath(Join(folder.rel, name), folder.root, Join(folder.full, name))
  }

  function IntoChildFolder(folder: FolderPath, name: PathBuf): FolderPath {
    FolderPath(Join(folder.rel, name), folder.root, Join(folder.full, name))
  }

  // ---- Where a path leads ----

  /** A place reached by walking: `ups` levels above the start, then down along `names`. */
  datatype Place = At(ups: nat, names: seq<string>) | Elsewhere

  function Walk(from: Place, path: PathBuf): Place {
    if path == [] || from == Elsewhere then from
    else
      var before := Walk(from, path[..|path| - 1]);
      if before == Elsewhere then Elsewhere
      else match path[|path| - 1]
        case Normal(name) => At(before.ups, before.names + [name])
        case ParentDir =>
          if before.names != [] then At(before.ups, before.names[..|before.names| - 1])
          else At(before.ups + 1, [])
        case CurDir => before
        case _ => Elsewhere
  }

  predicate Under(root: seq<string>, place: Place) {
    place.At? && place.ups == 0 && root <= place.names
  }

  /** Some prefix of the walk leaves the folder `root` it starts in. */
  ghost predicate Leaves(root: seq<string>, rel: PathBuf) {
    exists i :: 0 <= i <= |rel| && !Under(root, Walk(At(0, root), rel[..i]))
  }

  lemma WalkStep(from: Place, path: PathBuf, i: nat)
    requires i < |path|
    ensures path[..i + 1][..i] == path[..i] && path[..i + 1][i] == path[i]
  {
  }

  lemma PrefixesStay(rel: PathBuf, i: nat)
    requires i <= |rel|
    requires forall j :: 0 <= j <= i ==> Under([], Walk(At(0, []), rel[..j]))
    ensures !Leaves([], rel[..i])
  {
    assert forall j :: 0 <= j <= i ==> rel[..i][..j] == rel[..j];
  }

  /** While a walk stays at or below its start, the same walk from `root` runs in parallel below `root`. */
  lemma {:induction false} WalkBelow(root: seq<string>, rel: PathBuf)
    requires !Leaves([], rel)
    ensures Under([], Walk(At(0, []), rel))
    ensures Walk(At(0, root), rel) == At(0, root + Walk(At(0, []), rel).names)
  {
    assert rel[..|rel|] == rel;
    assert Under([], Walk(At(0, []), rel));
    if rel != [] {
      var init := rel[..|rel| - 1];
      PrefixesStay(rel, |rel| - 1);
      WalkBelow(root, init);
      var names := Walk(At(0, []), init).names;
      match rel[|rel| - 1]
      case Normal(name) => assert root + names + [name] == root + (names + [name]);
      case ParentDir =>
        assert names != [];
        assert (root + names)[..|root + names| - 1] == root + names[..|names| - 1];
      case _ =>
    } else {
      assert root + [] == root;
    }
  }

  /** Whether a walk climbs above its start does not depend on where it starts. */
  lemma LeavingIsRootless(root: seq<string>, rel: PathBuf)
    ensures Leaves(root, rel) <==> Leaves([], rel)
  {
    if Leaves([], rel) {
      var i := FirstExit(rel);
      PrefixesStay(rel, i - 1);
      WalkBelow(root, rel[..i - 1]);
      WalkStep(At(0, root), rel, i - 1);
      assert !Under(root, Walk(At(0, root), rel[..i]));
    } else {
      forall i | 0 <= i <= |rel|
        ensures Under(root, Walk(At(0, root), rel[..i]))
      {
        PrefixesStay(rel, i);
        WalkBelow(root, rel[..i]);
      }
    }
  }

  lemma FirstExit(rel: PathBuf) returns (i: nat)
    requires Leaves([], rel)
    ensures 0 < i <= |rel| && !Under([], Walk(At(0, []), rel[..i]))
    ensures forall j :: 0 <= j < i ==> Under([], Walk(At(0, []), rel[..j]))
  {
    i := 0;
    while Under([], Walk(At(0, []), rel[..i]))
      invariant i <= |rel|
      invariant forall j :: 0 <= j < i ==> Under([], Walk(At(0, []), rel[..j]))
      decreases |rel| - i
    {
      if i == |rel| {
        assert false;
      }
      i := i + 1;
    }
  }

  /** The depth loop returns true exactly when some prefix of the path climbs above its start. */
  method EscapesRoot(rel: PathBuf) returns (escapes: bool)
    ensures escapes <==> Leaves([], rel)
  {
    var depth := 0;
    for i := 0 to |rel|
      invariant Walk(At(0, []), rel[..i]).At?
      invariant Walk(At(0, []), rel[..i]).ups == 0
      invariant depth == |Walk(At(0, []), rel[..i]).names|
      invariant forall j :: 0 <= j <= i ==> Under([], Walk(At(0, []), rel[..j]))
    {
      WalkStep(At(0, []), rel, i);
      match rel[i] {
        case Normal(_) =>
          depth := depth + 1;
        case ParentDir =>
          depth := depth - 1;
          if depth < 0 {
            assert !Under([], Walk(At(0, []), rel[..i + 1]));
            return true;
          }
        case CurDir =>
        case _ =>
          assert !Under([], Walk(At(0, []), rel[..i + 1]));
          return true;
      }
    }
    return false;
  }

  /** What `into_parent_folder` returns. */
  ghost function ParentFolder(file: FilePath): Result<FolderPath, PathError> {
    match Parent(file.rel)
    case None => Err(EscapesRootPath)
    case Some(rel) => if Leaves([], rel) then Err(EscapesRootPath) else Ok(BuildFolder(file.root, rel))
  }

  method IntoParentFolder(file: FilePath) returns (folder: Result<FolderPath, PathError>)
    ensures folder == ParentFolder(file)
  {
    var relParent := Parent(file.rel);
    if relParent == None {
      return Err(EscapesRootPath);
    }
    var escapes := EscapesRoot(relParent.value);
    if escapes {
      return Err(EscapesRootPath);
    }
    return Ok(FolderPath(relParent.value, file.root, Join(file.root, relParent.value)));
  }

  // ---- Main results ----

  function Names(names: seq<string>): PathBuf {
    seq(|names|, i requires 0 <= i < |names| => Normal(names[i]))
  }

  lemma {:induction false} WalkNames(names: seq<string>)
    ensures Walk(At(0, []), Names(names)) == At(0, names)
  {
    if names != [] {
      var init := names[..|names| - 1];
      WalkNames(init);
      assert Names(names)[..|names| - 1] == Names(init);
      assert init + [names[|names| - 1]] == names;
    }
  }

  lemma {:induction false} WalkAppends(from: Place, a: PathBuf, b: PathBuf)
    ensures Walk(from, a + b) == Walk(Walk(from, a), b)
  {
    if b == [] {
      assert a + b == a;
    } else {
      assert (a + b)[..|a + b| - 1] == a + b[..|b| - 1];
      WalkAppends(from, a, b[..|b| - 1]);
    }
  }

  /** A normalised root: plain names, behind the root directory when it is absolute. */
  datatype Root = Root(absolute: bool, names: seq<string>)

  function RootPath(root: Root): PathBuf {
    (if root.absolute then [RootDir] else []) + Names(root.names)
  }

  predicate StartsAtRoot(p: PathBuf) {
    p != [] && p[0].RootDir?
  }

  /** A full path leads to or below the root: both start in the same place, and the walk ends under its names. */
  predicate Within(root: Root, full: PathBuf) {
    && StartsAtRoot(full) == root.absolute
    && Under(root.names, Walk(At(0, []), if root.absolute then full[1..] else full))
  }

  /**
   Containment, both ways: under a normalised root, relative or absolute, `into_parent_folder`
   succeeds exactly when there is a parent and no step of the way to it leaves the root, and then the
   folder's full path leads to a place at or below the root.
   */
  lemma ParentStaysUnderRoot(root: Root, rel: PathBuf)
    ensures var parent := ParentFolder(BuildFile(RootPath(root), rel));
            && (parent.Ok? <==> Parent(rel).Some? && !Leaves(root.names, Parent(rel).value))
            && (parent.Ok? ==> Within(root, parent.value.full))
  {
    var parent := ParentFolder(BuildFile(RootPath(root), rel));
    if Parent(rel).Some? {
      var up := Parent(rel).value;
      LeavingIsRootless(root.names, up);
      if parent.Ok? {
        if IsAbsolute(up) { AbsoluteLeaves(up); }
        RelativeIsAppended(root.names, up);
        assert up[..|up|] == up;
        assert Under(root.names, Walk(At(0, root.names), up));
        RootComesFirst(root, up);
      }
    }
  }

  /** Behind the root directory a path is joined as it is without it. */
  lemma RootComesFirst(root: Root, rel: PathBuf)
    requires !IsAbsolute(rel)
    ensures StartsAtRoot(Join(RootPath(root), rel)) == root.absolute
    ensures var full := Join(RootPath(root), rel);
            var tail := if root.absolute then full[1..] else full;
            Walk(At(0, []), tail) == Walk(At(0, []), Join(Names(root.names), rel))
  {
    var names := Names(root.names);
    if root.absolute {
      var plain := if rel != [] && rel[0].CurDir? then rel[1..] else rel;
      BehindRoot(names, rel, plain);
      if names == [] {
        assert names + plain == plain;
        if plain != rel { DotLeadsNowhere(rel); }
      }
    } else {
      assert RootPath(root) == names;
    }
  }

  lemma BehindRoot(names: PathBuf, rel: PathBuf, plain: PathBuf)
    requires !IsAbsolute(rel) && plain == if rel != [] && rel[0].CurDir? then rel[1..] else rel
    ensures Join([RootDir] + names, rel) == [RootDir] + (names + plain)
    ensures StartsAtRoot([RootDir] + (names + plain)) && ([RootDir] + (names + plain))[1..] == names + plain
  {
    assert [RootDir] + names + plain == [RootDir] + (names + plain);
  }

  /** A leading `.` does not change where a walk leads. */
  lemma DotLeadsNowhere(rel: PathBuf)
    requires rel != [] && rel[0].CurDir?
    ensures Walk(At(0, []), rel) == Walk(At(0, []), rel[1..])
  {
    WalkAppends(At(0, []), [CurDir], rel[1..]);
    assert [CurDir] + rel[1..] == rel;
    assert [CurDir][..0] == [];
  }

  /** Joining a relative path onto a root leads where walking it from the root leads. */
  lemma RelativeIsAppended(root: seq<string>, rel: PathBuf)
    requires !IsAbsolute(rel)
    ensures Walk(At(0, []), Join(Names(root), rel)) == Walk(At(0, root), rel)
  {
    WalkNames(root);
    if root == [] {
      assert Names(root) == [];
    } else if rel != [] && rel[0].CurDir? {
      WalkAppends(At(0, []), Names(root), rel[1..]);
      WalkAppends(At(0, root), [CurDir], rel[1..]);
      assert [CurDir] + rel[1..] == rel;
      assert Walk(At(0, root), [CurDir]) == At(0, root) by { assert [CurDir][..0] == []; }
    } else {
      WalkAppends(At(0, []), Names(root), rel);
    }
  }

  /** Joining leads on from where the left path leads, unless the right one starts over. */
  lemma JoinLeadsOn(from: Place, a: PathBuf, b: PathBuf)
    ensures IsAbsolute(b) ==> Join(a, b) == b
    ensures !IsAbsolute(b) ==> Walk(from, Join(a, b)) == Walk(Walk(from, a), b)
  {
    if !IsAbsolute(b) && a != [] {
      if b != [] && b[0].CurDir? {
        WalkAppends(from, a, b[1..]);
        WalkAppends(Walk(from, a), [CurDir], b[1..]);
        assert [CurDir] + b[1..] == b && [CurDir][..0] == [];
      } else {
        WalkAppends(from, a, b);
      }
    }
  }

  /**
   A child, file or folder, is reached from its folder by walking its name, along the relative and the
   full path alike; an absolute name is the whole path.
   */
  lemma ChildLeadsDown(folder: FolderPath, name: PathBuf, from: Place)
    ensures var file, child := IntoChildFile(folder, name), IntoChildFolder(folder, name);
            && child == FolderPath(file.rel, file.root, file.full) && file.root == folder.root
            && (IsAbsolute(name) ==> file.rel == file.full == name)
            && (!IsAbsolute(name) ==>
                  && Walk(from, file.rel) == Walk(Walk(from, folder.rel), name)
                  && Walk(from, file.full) == Walk(Walk(from, folder.full), name))
  {
    JoinLeadsOn(from, folder.rel, name);
    JoinLeadsOn(from, folder.full, name);
  }

  /** The parent is the path without its last component; a root, and the empty path, have none. */
  lemma ParentDropsLast(p: PathBuf, last: Component)
    ensures Parent(p + [last]) == if last.RootDir? || last.Prefix? then None else Some(p)
    ensures Parent([]) == None
  {
    assert (p + [last])[..|p + [last]| - 1] == p;
  }

  lemma AbsoluteLeaves(rel: PathBuf)
    requires IsAbsolute(rel)
    ensures Leaves([], rel)
  {
    assert rel[..1][..0] == [];
    assert !Under([], Walk(At(0, []), rel[..1]));
  }

  /** What joining appends: a leading `.` of the right path is dropped. */
  function Undotted(p: PathBuf): PathBuf {
    if p != [] && p[0].CurDir? then p[1..] else p
  }

  lemma JoinAppends(a: PathBuf, b: PathBuf)
    requires !IsAbsolute(b) && a != []
    ensures Join(a, b) == a + Undotted(b)
  {
  }

  lemma AppendedStart(b: PathBuf, c: PathBuf)
    requires b != []
    ensures IsAbsolute(b + c) == IsAbsolute(b) && Undotted(b + c) == Undotted(b) + c
  {
    assert (b + c)[0] == b[0] && (b + c)[1..] == b[1..] + c;
  }

  lemma Regroup(a: PathBuf, b: PathBuf, c: PathBuf)
    ensures (a + b) + c == a + (b + c)
  {
  }

  lemma JoinIsAssociative(a: PathBuf, b: PathBuf, c: PathBuf)
    ensures Join(Join(a, b), c) == Join(a, Join(b, c))
  {
    if !IsAbsolute(b) && !IsAbsolute(c) && a != [] && b != [] {
      JoinAppends(a, b);
      JoinAppends(b, c);
      AppendedStart(b, Undotted(c));
      JoinAppends(a, Join(b, c));
      JoinAppends(Join(a, b), c);
      Regroup(a, Undotted(b), Undotted(c));
    }
  }

  /** The full path is the root joined with the relative one. */
  predicate Consistent(rel: PathBuf, root: PathBuf, full: PathBuf) {
    full == Join(root, rel)
  }

  /** A step of navigation; the typestate of the source makes `Up` apply to files only. */
  datatype Step = Down(name: PathBuf) | Up(file: PathBuf)

  /** A chain of steps from a folder: down into a child folder, or down to a file and up from it. */
  ghost function Navigate(folder: FolderPath, steps: seq<Step>): Result<FolderPath, PathError>
    decreases steps
  {
    if steps == [] then Ok(folder)
    else match steps[0]
      case Down(name) => Navigate(IntoChildFolder(folder, name), steps[1..])
      case Up(file) =>
        match ParentFolder(IntoChildFile(folder, file))
        case Err(e) => Err(e)
        case Ok(up) => Navigate(up, steps[1..])
  }

  /** full = root.join(rel), and the root itself, survive every chain of navigation. */
  lemma {:induction false} NavigationKeepsFull(folder: FolderPath, steps: seq<Step>)
    requires Consistent(folder.rel, folder.root, folder.full)
    ensures var end := Navigate(folder, steps);
            end.Ok? ==> end.value.root == folder.root
                        && Consistent(end.value.rel, end.value.root, end.value.full)
    decreases steps
  {
    if steps != [] {
      match steps[0]
      case Down(name) =>
        JoinIsAssociative(folder.root, folder.rel, name);
        NavigationKeepsFull(IntoChildFolder(folder, name), steps[1..]);
      case Up(file) =>
        var up := ParentFolder(IntoChildFile(folder, file));
        if up.Ok? {
          NavigationKeepsFull(up.value, steps[1..]);
        }
    }
  }

  /** Down to a child file and back up is the starting folder, exactly when that folder is not above the root. */
  lemma ChildThenParent(folder: FolderPath, name: string)
    requires Consistent(folder.rel, folder.root, folder.full)
    ensures ParentFolder(IntoChildFile(folder, [Normal(name)])) == Ok(folder) <==> !Leaves([], folder.rel)
  {
    var file := IntoChildFile(folder, [Normal(name)]);
    assert file.rel == folder.rel + [Normal(name)];
    assert file.rel[..|file.rel| - 1] == folder.rel;
  }
}
