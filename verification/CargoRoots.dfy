/** find_cargo_workspaces of src/formatter.rs: a sort by depth and an ancestor filter
    that keep exactly the minimal directories. */
module CargoRoots {
  import opened StableSort

  type Dir = seq<string>

  /** A Cargo.toml that the directory walk meets: its directory, and whether it was
      read and declares a workspace. */
  datatype Manifest = Manifest(dir: Dir, workspace: bool)

  predicate SkippedName(s: string) { s == "target" || s == "node_modules" || s == ".git" }

  predicate Skipped(m: Manifest) { exists i | 0 <= i < |m.dir| :: SkippedName(m.dir[i]) }

  predicate ProperAncestor(a: Dir, b: Dir) { a <= b && a != b }

  /** No proper ancestor in the list. */
  ghost predicate Minimal(d: Dir, dirs: seq<Dir>) { d in dirs && forall a | a in dirs :: !ProperAncestor(a, d) }

  function Shallowness(d: Dir): real { -(|d| as real) }

  ghost predicate HasRoot(roots: seq<Dir>, d: Dir) { exists r :: r in roots && r <= d }

  /** What the filter must keep: exactly the minimal directories, which have no two on
      one path, and which together cover the list. */
  ghost predicate AreRoots(roots: seq<Dir>, dirs: seq<Dir>) {
    && (forall d :: d in roots <==> Minimal(d, dirs))
    && (forall a, b | a in roots && b in roots :: !ProperAncestor(a, b))
    && (forall d | d in dirs :: HasRoot(roots, d))
    && (Distinct(dirs) ==> Distinct(roots))
  }

  /** The sort and the filter loop. */
  method FilterRoots(dirs: seq<Dir>) returns (roots: seq<Dir>)
    ensures AreRoots(roots, dirs)
  {
    var sorted := Sort(Shallowness, dirs);
    ByDepth(dirs);
    roots := [];
    for i := 0 to |sorted|
      invariant SoFar(sorted, i, roots)
      invariant Distinct(sorted) ==> Distinct(roots)
    {
      var d := sorted[i];
      var isChild := exists j | 0 <= j < |roots| :: roots[j] <= d && d != roots[j];
      ChildIffNotMinimal(sorted, i, roots);
      NextRoot(sorted, i, roots);
      if !isChild {
        roots := roots + [d];
      }
    }
    AllRoots(sorted, roots);
    SameRoots(sorted, dirs, roots);
  }

  method FindCargoWorkspaces(manifests: seq<Manifest>) returns (roots: seq<Dir>)
    ensures AreRoots(roots, if Dirs(manifests, true) != [] then Dirs(manifests, true) else Dirs(manifests, false))
    ensures RootsOf(manifests, roots)
  {
    var workspaces, all: seq<Dir> := [], [];
    for i := 0 to |manifests|
      invariant workspaces + Dirs(manifests[i..], true) == Dirs(manifests, true)
      invariant all + Dirs(manifests[i..], false) == Dirs(manifests, false)
    {
      var m := manifests[i];
      DirsStep(workspaces, manifests, i, true);
      DirsStep(all, manifests, i, false);
      if Skipped(m) { continue; }
      if m.workspace { workspaces := workspaces + [m.dir]; }
      all := all + [m.dir];
    }
    assert workspaces == Dirs(manifests, true) && all == Dirs(manifests, false);
    if workspaces != [] {
      roots := FilterRoots(workspaces);
    } else {
      roots := FilterRoots(all);
    }
    RootsOfDirs(manifests, roots);
  }

  /** The directories of the manifests that are not skipped; of all, or of workspaces. */
  function Dirs(ms: seq<Manifest>, onlyWorkspaces: bool): seq<Dir> {
    if ms == [] then []
    else
      (if Skipped(ms[0]) || (onlyWorkspaces && !ms[0].workspace) then [] else [ms[0].dir])
      + Dirs(ms[1..], onlyWorkspaces)
  }

  /** A manifest of this directory was found, outside build, package and Git directories;
      where `workspace` is asked for, one that declares a workspace. */
  ghost predicate Found(ms: seq<Manifest>, d: Dir, workspace: bool) {
    exists i | 0 <= i < |ms| :: ms[i].dir == d && (workspace ==> ms[i].workspace)
                                && forall j | 0 <= j < |d| :: d[j] !in {"target", "node_modules", ".git"}
  }

  /** The roots, from the manifests alone: the found directories without a found proper
      ancestor, looking at workspaces only if there are any. */
  ghost predicate RootsOf(ms: seq<Manifest>, roots: seq<Dir>) {
    var workspace := exists d :: Found(ms, d, true);
    forall d :: d in roots <==>
      Found(ms, d, workspace) && forall a | Found(ms, a, workspace) :: !(a <= d && a != d)
  }

  lemma {:induction false} DirsIff(ms: seq<Manifest>, d: Dir, workspace: bool)
    ensures d in Dirs(ms, workspace) <==> Found(ms, d, workspace)
  {
    if ms != [] {
      DirsIff(ms[1..], d, workspace);
      assert forall i | 0 < i < |ms| :: ms[i] == ms[1..][i - 1];
      if Found(ms[1..], d, workspace) {
        var i :| 0 <= i < |ms| - 1 && ms[1..][i].dir == d && (workspace ==> ms[1..][i].workspace);
        assert ms[i + 1].dir == d;
      }
    }
  }

  lemma RootsOfDirs(ms: seq<Manifest>, roots: seq<Dir>)
    requires AreRoots(roots, if Dirs(ms, true) != [] then Dirs(ms, true) else Dirs(ms, false))
    ensures RootsOf(ms, roots)
  {
    forall d, workspace
      ensures d in Dirs(ms, workspace) <==> Found(ms, d, workspace)
    {
      DirsIff(ms, d, workspace);
    }
    if Dirs(ms, true) != [] { assert Found(ms, Dirs(ms, true)[0], true); }
    var dirs := if Dirs(ms, true) != [] then Dirs(ms, true) else Dirs(ms, false);
    assert forall d :: d in roots <==> Minimal(d, dirs);
  }

  // ------------------------------------------------------------------- lemmas

  lemma AllRoots(s: seq<Dir>, roots: seq<Dir>)
    requires SoFar(s, |s|, roots) && (Distinct(s) ==> Distinct(roots))
    ensures AreRoots(roots, s)
  {
    assert s[..|s|] == s;
  }

  lemma SameRoots(s: seq<Dir>, dirs: seq<Dir>, roots: seq<Dir>)
    requires AreRoots(roots, s) && (forall d :: d in s <==> d in dirs) && (Distinct(dirs) ==> Distinct(s))
    ensures AreRoots(roots, dirs)
  {
    assert forall d :: Minimal(d, s) <==> Minimal(d, dirs);
  }

  lemma DirsStep(found: seq<Dir>, ms: seq<Manifest>, i: nat, onlyWorkspaces: bool)
    requires i < |ms|
    ensures found + Dirs(ms[i..], onlyWorkspaces) ==
            (if Skipped(ms[i]) || (onlyWorkspaces && !ms[i].workspace) then found else found + [ms[i].dir])
            + Dirs(ms[i + 1..], onlyWorkspaces)
  {
    assert ms[i..][1..] == ms[i + 1..];
  }

  ghost predicate DepthSorted(s: seq<Dir>) { forall i, j | 0 <= i < j < |s| :: |s[i]| <= |s[j]| }

  lemma ByDepth(dirs: seq<Dir>)
    ensures var s := Sort(Shallowness, dirs);
            && DepthSorted(s) && (forall d :: d in s <==> d in dirs)
            && (Distinct(dirs) ==> Distinct(s))
  {
    var s := Sort(Shallowness, dirs);
    SortIsSorted(Shallowness, dirs);
    SortKeepsElements(Shallowness, dirs);
    assert forall i, j | 0 <= i < j < |s| :: Shallowness(s[i]) >= Shallowness(s[j]);
  }

  /** After i directories the roots are the minimal ones among them and cover them. */
  ghost predicate SoFar(s: seq<Dir>, i: nat, roots: seq<Dir>) {
    && DepthSorted(s) && i <= |s|
    && (forall d :: d in roots <==> d in s[..i] && Minimal(d, s))
    && (forall k | 0 <= k < i :: HasRoot(roots, s[k]))
  }

  /** An ancestor stands earlier in the sorted list, so the roots found so far decide. */
  lemma ChildIffNotMinimal(s: seq<Dir>, i: nat, roots: seq<Dir>)
    requires SoFar(s, i, roots) && i < |s|
    ensures (exists j | 0 <= j < |roots| :: ProperAncestor(roots[j], s[i])) <==> !Minimal(s[i], s)
  {
    if j :| 0 <= j < |roots| && ProperAncestor(roots[j], s[i]) {
      assert roots[j] in roots;
    }
    if !Minimal(s[i], s) {
      var a :| a in s && ProperAncestor(a, s[i]);
      var k := EarlierIndex(s, a, i);
      assert HasRoot(roots, s[k]);
      var r :| r in roots && r <= a;
      var j :| 0 <= j < |roots| && roots[j] == r;
      assert ProperAncestor(roots[j], s[i]);
    }
  }

  lemma EarlierIndex(s: seq<Dir>, a: Dir, i: nat) returns (k: nat)
    requires DepthSorted(s) && i < |s| && a in s && ProperAncestor(a, s[i])
    ensures k < i && s[k] == a
  {
    k :| 0 <= k < |s| && s[k] == a;
    assert |a| < |s[i]|;
  }

  lemma NextRoot(s: seq<Dir>, i: nat, roots: seq<Dir>)
    requires SoFar(s, i, roots) && i < |s|
    requires (exists j | 0 <= j < |roots| :: ProperAncestor(roots[j], s[i])) <==> !Minimal(s[i], s)
    ensures SoFar(s, i + 1, if Minimal(s[i], s) then roots + [s[i]] else roots)
    ensures Minimal(s[i], s) && Distinct(s) ==> s[i] !in roots
  {
    assert s[..i + 1] == s[..i] + [s[i]];
    var next := if Minimal(s[i], s) then roots + [s[i]] else roots;
    forall k | 0 <= k <= i
      ensures HasRoot(next, s[k])
    {
      if k < i {
        assert HasRoot(roots, s[k]);
        var r :| r in roots && r <= s[k];
        assert r in next;
      } else if Minimal(s[i], s) {
        assert s[i] in next;
      } else {
        var j :| 0 <= j < |roots| && ProperAncestor(roots[j], s[i]);
        assert roots[j] in next;
      }
    }
  }

}
