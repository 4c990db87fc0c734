/** What a built directory tree has to do with the disk: which entries are in it, and
    with which numbers. */
module DiskTree {
  import opened Wrappers
  import opened DirectoryTree
  import opened Hotspots

  /** The names in `rel` lead from d to e, through entries of which none is excluded. */
  ghost predicate LeadsTo(d: Disk, rel: seq<string>, e: Disk)
    decreases |rel|
  {
    if rel == [] then e == d
    else
      && d.DiskDir?
      && exists k ::
           0 <= k < |d.entries| && Enters(d.entries[k], rel[0]) && LeadsTo(d.entries[k], rel[1..], e)
  }

  predicate Enters(d: Disk, name: string) { d.name == name && !d.excluded }

  /** A source file that cannot be read is left out. */
  predicate Kept(e: Disk) { e.DiskFile? && e.source ==> e.readable }

  /** Node m is entry e at this path: a source file with its numbers and its time, any
      other file with none, or a directory. */
  ghost predicate IsNodeOf(m: Node, path: seq<string>, e: Disk) {
    && m.path == path && m.name == e.name
    && match e
       case DiskDir(_, _, _) => m.kind == Directory
       case DiskFile(_, _, source, _, counts, modified) =>
         && m.kind == File && m.children == []
         && if source then m.counts == counts && m.modified == modified
            else m.counts == Counts(0, 0, 0, 0, 0, 0, 0, 0, 0) && m.modified == None
  }

  lemma {:induction false} BuildAllFrom(path: seq<string>, entries: seq<Disk>, c: Node) returns (k: nat)
    requires c in BuildAll(path, entries)
    ensures k < |entries| && !entries[k].excluded && Build(path + [entries[k].name], entries[k]) == Some(c)
    decreases |entries|
  {
    var e := entries[0];
    if !e.excluded && Build(path + [e.name], e) == Some(c) {
      k := 0;
    } else {
      var j := BuildAllFrom(path, entries[1..], c);
      k := j + 1;
    }
  }

  lemma {:induction false} BuildAllHas(path: seq<string>, entries: seq<Disk>, k: nat)
    requires k < |entries| && !entries[k].excluded && Build(path + [entries[k].name], entries[k]).Some?
    ensures Build(path + [entries[k].name], entries[k]).value in BuildAll(path, entries)
    decreases |entries|
  {
    if k > 0 { BuildAllHas(path, entries[1..], k - 1); }
  }

  lemma ChildrenOf(path: seq<string>, d: Disk, c: Node)
    requires d.DiskDir?
    ensures c in Build(path, d).value.children <==> c in BuildAll(path, d.entries)
  {
    SortIsPermutation(BuildAll(path, d.entries));
    SameMembers(Build(path, d).value.children, BuildAll(path, d.entries));
  }

  /** Every node of the tree is an entry of the disk. */
  lemma {:induction false} NodeIsEntry(path: seq<string>, d: Disk, m: Node) returns (rel: seq<string>, e: Disk)
    requires Build(path, d).Some? && InTree(Build(path, d).value, m)
    ensures LeadsTo(d, rel, e) && Kept(e) && IsNodeOf(m, path + rel, e)
    decreases d
  {
    var n := Build(path, d).value;
    if m == n {
      rel, e := [], d;
      assert path + rel == path;
    } else {
      var c :| c in n.children && InTree(c, m);
      ChildrenOf(path, d, c);
      var k := BuildAllFrom(path, d.entries, c);
      var entry := d.entries[k];
      var rest, e1 := NodeIsEntry(path + [entry.name], entry, m);
      rel, e := [entry.name] + rest, e1;
      assert rel[1..] == rest && Enters(entry, rel[0]);
      Deeper(path, rel);
    }
  }

  /** And every entry that is kept is a node of the tree. */
  lemma {:induction false} EntryIsNode(path: seq<string>, d: Disk, rel: seq<string>, e: Disk) returns (m: Node)
    requires Build(path, d).Some? && LeadsTo(d, rel, e) && Kept(e)
    ensures InTree(Build(path, d).value, m) && IsNodeOf(m, path + rel, e)
    decreases |rel|
  {
    if rel == [] {
      m := Build(path, d).value;
      assert path + rel == path;
    } else {
      var k :| 0 <= k < |d.entries| && Enters(d.entries[k], rel[0]) && LeadsTo(d.entries[k], rel[1..], e);
      var below := path + [rel[0]];
      BuiltOnTheWay(below, d.entries[k], rel[1..], e);
      m := EntryIsNode(below, d.entries[k], rel[1..], e);
      InEntryInTree(path, d, k, m);
      Deeper(path, rel);
    }
  }

  lemma Deeper(path: seq<string>, rel: seq<string>)
    requires rel != []
    ensures path + [rel[0]] + rel[1..] == path + rel
  {}

  lemma InEntryInTree(path: seq<string>, d: Disk, k: nat, m: Node)
    requires d.DiskDir? && k < |d.entries| && !d.entries[k].excluded
    requires Build(path + [d.entries[k].name], d.entries[k]).Some?
    requires InTree(Build(path + [d.entries[k].name], d.entries[k]).value, m)
    ensures InTree(Build(path, d).value, m)
  {
    BuildAllHas(path, d.entries, k);
    ChildrenOf(path, d, Build(path + [d.entries[k].name], d.entries[k]).value);
  }

  lemma BuiltOnTheWay(path: seq<string>, d: Disk, rel: seq<string>, e: Disk)
    requires LeadsTo(d, rel, e) && Kept(e)
    ensures Build(path, d).Some?
  {}

  /** With different names among siblings a path leads to one entry at most. */
  lemma {:induction false} OneEntry(d: Disk, rel: seq<string>, e1: Disk, e2: Disk)
    requires DiskOk(d) && LeadsTo(d, rel, e1) && LeadsTo(d, rel, e2)
    ensures e1 == e2
    decreases |rel|
  {
    if rel != [] {
      var i :| 0 <= i < |d.entries| && Enters(d.entries[i], rel[0]) && LeadsTo(d.entries[i], rel[1..], e1);
      var j :| 0 <= j < |d.entries| && Enters(d.entries[j], rel[0]) && LeadsTo(d.entries[j], rel[1..], e2);
      assert i == j;
      OneEntry(d.entries[i], rel[1..], e1, e2);
    }
  }

  ghost predicate HasNode(n: Node, path: seq<string>, kind: NodeType) {
    exists m :: InTree(n, m) && m.path == path && m.kind == kind
  }

  ghost predicate HasEntry(d: Disk, rel: seq<string>, kind: NodeType) {
    exists e :: LeadsTo(d, rel, e) && Kept(e) && (e.DiskDir? <==> kind == Directory)
  }

  /** The tree mirrors the disk.  It is built unless the root is a source file that cannot
      be read; a path below the root is that of a file or directory of the tree exactly
      when it leads to one on the disk, through entries none of which is excluded, that
      is not an unreadable source file; and each node is that entry, with its numbers. */
  lemma TreeMirrorsDisk(path: seq<string>, d: Disk)
    requires DiskOk(d)
    ensures Build(path, d).Some? <==> Kept(d)
    ensures Kept(d) ==>
              var n := Build(path, d).value;
              && (forall rel, kind :: HasNode(n, path + rel, kind) <==> HasEntry(d, rel, kind))
              && (forall m, rel, e | InTree(n, m) && m.path == path + rel && LeadsTo(d, rel, e) ::
                    IsNodeOf(m, path + rel, e))
  {
    if Kept(d) {
      var n := Build(path, d).value;
      forall rel, kind
        ensures HasNode(n, path + rel, kind) <==> HasEntry(d, rel, kind)
      {
        NodeIffEntry(path, d, rel, kind);
      }
      forall m, rel, e | InTree(n, m) && m.path == path + rel && LeadsTo(d, rel, e)
        ensures IsNodeOf(m, path + rel, e)
      {
        var r, e1 := NodeIsEntry(path, d, m);
        SameEnd(path, r, rel);
        OneEntry(d, rel, e1, e);
      }
    }
  }

  lemma SameEnd(path: seq<string>, a: seq<string>, b: seq<string>)
    requires path + a == path + b
    ensures a == b
  {
    assert a == (path + a)[|path|..] && b == (path + b)[|path|..];
  }

  lemma NodeIffEntry(path: seq<string>, d: Disk, rel: seq<string>, kind: NodeType)
    requires Build(path, d).Some?
    ensures HasNode(Build(path, d).value, path + rel, kind) <==> HasEntry(d, rel, kind)
  {
    var n := Build(path, d).value;
    if HasNode(n, path + rel, kind) {
      var m :| InTree(n, m) && m.path == path + rel && m.kind == kind;
      var r, e := NodeIsEntry(path, d, m);
      SameEnd(path, r, rel);
      assert LeadsTo(d, rel, e);
    }
    if HasEntry(d, rel, kind) {
      var e :| LeadsTo(d, rel, e) && Kept(e) && (e.DiskDir? <==> kind == Directory);
      var m := EntryIsNode(path, d, rel, e);
    }
  }

  /** The files that conservation adds up are the files in the tree. */
  lemma {:induction false} LeavesAreFiles(n: Node, m: Node)
    requires TreeOk(n)
    ensures m in Leaves(n) <==> InTree(n, m) && m.kind == File
    decreases n, 1
  {
    if n.kind == Directory { LeavesOfAreFiles(n.children, m); }
  }

  lemma {:induction false} LeavesOfAreFiles(ns: seq<Node>, m: Node)
    requires forall i | 0 <= i < |ns| :: TreeOk(ns[i])
    ensures m in LeavesOf(ns) <==> exists c :: c in ns && InTree(c, m) && m.kind == File
    decreases ns, 0
  {
    if ns != [] {
      LeavesAreFiles(ns[0], m);
      LeavesOfAreFiles(ns[1..], m);
      assert ns == [ns[0]] + ns[1..];
    }
  }
}
