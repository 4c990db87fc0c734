/** find_hotspots of src/directory_tree.rs: a preorder collection, a stable sort and
    a truncation, whose result is closed under ancestors. */
module Hotspots {
  import opened DirectoryTree
  import opened StableSort

  datatype Hotspot = Hotspot(
    path: seq<string>, name: string, kind: NodeType, total: nat, critical: nat, high: nat, lines: nat)

  function HotspotOf(n: Node): Hotspot {
    Hotspot(n.path, n.name, n.kind, n.counts.Issues(), n.counts.critical, n.counts.high, n.counts.lines)
  }

  function Collect(n: Node): seq<Hotspot>
    decreases n
  {
    (if n.counts.Issues() > 0 then [HotspotOf(n)] else []) + CollectAll(n.children)
  }

  function CollectAll(ns: seq<Node>): seq<Hotspot>
    decreases ns
  {
    if ns == [] then [] else Collect(ns[0]) + CollectAll(ns[1..])
  }

  /** collect_hotspots, which pushes onto the caller's vector. */
  method CollectHotspots(n: Node, hotspots: seq<Hotspot>) returns (out: seq<Hotspot>)
    ensures out == hotspots + Collect(n)
    decreases n
  {
    out := hotspots;
    var total := n.counts.Issues();
    if total > 0 {
      out := out + [Hotspot(n.path, n.name, n.kind, total, n.counts.critical, n.counts.high, n.counts.lines)];
    }
    for i := 0 to |n.children|
      invariant out + CollectAll(n.children[i..]) == hotspots + Collect(n)
    {
      assert n.children[i..][1..] == n.children[i + 1..];
      ghost var before := out;
      out := CollectHotspots(n.children[i], out);
      assert out + CollectAll(n.children[i + 1..]) == before + CollectAll(n.children[i..]);
    }
    assert out == out + CollectAll(n.children[|n.children|..]);
  }

  function Size(h: Hotspot): real { h.total as real }

  /** sort_by on the total, descending, then truncate. */
  function Ranked(c: seq<Hotspot>, limit: nat): seq<Hotspot> { Truncate(Sort(Size, c), limit) }

  method FindHotspots(n: Node, limit: nat) returns (r: seq<Hotspot>)
    ensures r == Ranked(Collect(n), limit)
  {
    var hotspots := CollectHotspots(n, []);
    assert hotspots == Collect(n);
    hotspots := Sort(Size, hotspots);
    r := Truncate(hotspots, limit);
  }

  // ----------------------------------------------------------- what is collected

  /** A node with issues, as it is reported: its own numbers, the total being the sum of
      the four severities. */
  ghost predicate Reports(h: Hotspot, m: Node) {
    && h.path == m.path && h.name == m.name && h.kind == m.kind
    && h.total == m.counts.critical + m.counts.high + m.counts.medium + m.counts.low && h.total > 0
    && h.critical == m.counts.critical && h.high == m.counts.high && h.lines == m.counts.lines
  }

  ghost predicate ReportsFrom(n: Node, h: Hotspot) { exists m :: InTree(n, m) && Reports(h, m) }

  /** Exactly the nodes with issues are collected, files and directories alike. */
  lemma {:induction false} CollectedIff(n: Node, h: Hotspot)
    ensures h in Collect(n) <==> ReportsFrom(n, h)
    decreases n, 1
  {
    CollectedAllIff(n.children, h);
    if ReportsFrom(n, h) {
      var m :| InTree(n, m) && Reports(h, m);
      if m != n {
        var c :| c in n.children && InTree(c, m);
        assert ReportsFrom(c, h);
      }
    }
    if exists c :: c in n.children && ReportsFrom(c, h) {
      var c :| c in n.children && ReportsFrom(c, h);
      var m :| InTree(c, m) && Reports(h, m);
      assert InTree(n, m);
    }
    assert n.counts.Issues() > 0 ==> Reports(HotspotOf(n), n) && InTree(n, n);
  }

  lemma {:induction false} CollectedAllIff(ns: seq<Node>, h: Hotspot)
    ensures h in CollectAll(ns) <==> exists c :: c in ns && ReportsFrom(c, h)
    decreases ns, 0
  {
    if ns != [] {
      CollectedIff(ns[0], h);
      CollectedAllIff(ns[1..], h);
      assert ns == [ns[0]] + ns[1..];
    }
  }

  // --------------------------------------------------------- trees and ancestors

  /** A tree whose paths are those of a file system: a child's path extends its
      parent's by the child's name, and siblings have different names. */
  ghost predicate TreeOk(n: Node)
    decreases n
  {
    && (n.kind == File ==> n.children == [])
    && (forall i | 0 <= i < |n.children| ::
          n.children[i].path == n.path + [n.children[i].name] && TreeOk(n.children[i]))
    && (forall i, j | 0 <= i < j < |n.children| :: n.children[i].name != n.children[j].name)
  }

  /** A hotspot of a subtree lies in it and is no larger than its root. */
  lemma {:induction false} CollectedBelow(n: Node, i: nat)
    requires TreeOk(n) && Conserved(n) && i < |Collect(n)|
    ensures n.path <= Collect(n)[i].path && 0 < Collect(n)[i].total <= n.counts.Issues()
    decreases n, 1
  {
    var self := if n.counts.Issues() > 0 then 1 else 0;
    if i >= self {
      assert n.children[0..] == n.children;
      assert Collect(n)[i] == CollectAll(n.children)[i - self];
      var j := CollectedBelowAll(n, 0, i - self);
    }
  }

  lemma {:induction false} CollectedBelowAll(n: Node, k: nat, i: nat) returns (j: nat)
    requires TreeOk(n) && Conserved(n) && k <= |n.children| && i < |CollectAll(n.children[k..])|
    ensures var h := CollectAll(n.children[k..])[i];
            && 0 < h.total <= n.counts.Issues()
            && k <= j < |n.children| && n.children[j].path <= h.path
    decreases n, 0, |n.children| - k
  {
    var c := n.children[k];
    assert n.children[k..][1..] == n.children[k + 1..];
    assert CollectAll(n.children[k..]) == Collect(c) + CollectAll(n.children[k + 1..]);
    if i < |Collect(c)| {
      assert c in n.children;
      CollectedBelow(c, i);
      SumOfLeavesIs(n);
      SumBounds(n.children, k);
      j := k;
    } else {
      j := CollectedBelowAll(n, k + 1, i - |Collect(c)|);
    }
  }

  /** The counts of a conserved directory are the sum over its children. */
  lemma SumOfLeavesIs(n: Node)
    requires Conserved(n) && n.kind == Directory
    ensures n.counts == Sum(n.children)
  {
    forall c | c in n.children
      ensures c.counts == Sum(Leaves(c))
    {
      if c.kind == File { FileFaithful(c); }
    }
    SumOfLeaves(n.children);
  }

  lemma {:induction false} SumBounds(ns: seq<Node>, i: nat)
    requires i < |ns|
    ensures ns[i].counts.Issues() <= Sum(ns).Issues()
    decreases |ns|
  {
    if i > 0 { SumBounds(ns[1..], i - 1); }
  }

  /** Every proper ancestor of a collected node, up to the root, was collected before
      it with at least its total. */
  lemma {:induction false} AncestorCollected(n: Node, j: nat, k: nat) returns (i: nat)
    requires TreeOk(n) && Conserved(n) && j < |Collect(n)| && |n.path| <= k < |Collect(n)[j].path|
    ensures i < j && Collect(n)[i].path == Collect(n)[j].path[..k] && Collect(n)[i].total >= Collect(n)[j].total
    decreases n, 1
  {
    var all := CollectAll(n.children);
    CollectedBelow(n, j);
    assert Collect(n) == [HotspotOf(n)] + all;
    assert Collect(n)[j] == all[j - 1];
    if k == |n.path| {
      i := 0;
    } else {
      assert n.children[0..] == n.children;
      var m := AncestorCollectedAll(n, 0, j - 1, k);
      i := m + 1;
    }
  }

  lemma {:induction false} AncestorCollectedAll(n: Node, at: nat, j: nat, k: nat) returns (i: nat)
    requires TreeOk(n) && Conserved(n) && at <= |n.children| && j < |CollectAll(n.children[at..])|
    requires |n.path| < k < |CollectAll(n.children[at..])[j].path|
    ensures var c := CollectAll(n.children[at..]);
            i < j && c[i].path == c[j].path[..k] && c[i].total >= c[j].total
    decreases n, 0, |n.children| - at
  {
    var c := n.children[at];
    var a := Collect(c);
    assert n.children[at..][1..] == n.children[at + 1..];
    assert CollectAll(n.children[at..]) == a + CollectAll(n.children[at + 1..]);
    assert c in n.children;
    if j < |a| {
      i := AncestorCollected(c, j, k);
    } else {
      var m := AncestorCollectedAll(n, at + 1, j - |a|, k);
      i := m + |a|;
    }
  }

  /** No node is collected twice. */
  lemma {:induction false} CollectedOnce(n: Node, i: nat, j: nat)
    requires TreeOk(n) && Conserved(n) && i < j < |Collect(n)|
    ensures Collect(n)[i] != Collect(n)[j]
    decreases n, 1
  {
    var self := if n.counts.Issues() > 0 then 1 else 0;
    var all := CollectAll(n.children);
    assert n.children[0..] == n.children;
    assert Collect(n)[j] == all[j - self];
    if i < self {
      var m := CollectedBelowAll(n, 0, j - self);
    } else {
      CollectedOnceAll(n, 0, i - self, j - self);
    }
  }

  lemma CollectedDistinct(n: Node)
    requires TreeOk(n) && Conserved(n)
    ensures Distinct(Collect(n))
  {
    forall x, y | 0 <= x < y < |Collect(n)|
      ensures Collect(n)[x] != Collect(n)[y]
    {
      CollectedOnce(n, x, y);
    }
  }

  lemma {:induction false} CollectedOnceAll(n: Node, at: nat, i: nat, j: nat)
    requires TreeOk(n) && Conserved(n) && at <= |n.children| && i < j < |CollectAll(n.children[at..])|
    ensures CollectAll(n.children[at..])[i] != CollectAll(n.children[at..])[j]
    decreases n, 0, |n.children| - at
  {
    var c := n.children[at];
    var a, b := Collect(c), CollectAll(n.children[at + 1..]);
    assert n.children[at..][1..] == n.children[at + 1..];
    assert CollectAll(n.children[at..]) == a + b;
    assert c in n.children;
    if j < |a| {
      CollectedOnce(c, i, j);
    } else if i >= |a| {
      CollectedOnceAll(n, at + 1, i - |a|, j - |a|);
    } else {
      CollectedBelow(c, i);
      var m := CollectedBelowAll(n, at + 1, j - |a|);
      assert a[i].path[|n.path|] == c.name && b[j - |a|].path[|n.path|] == n.children[m].name;
    }
  }

  // ------------------------------------------------------------ main theorems

  /** Hotspots are closed under ancestors, for every tree with conserved counts and
      every limit: each directory on the way from the root to a reported node is
      reported too, and ahead of it. */
  lemma HotspotsIncludeAncestors(n: Node, limit: nat, q: nat, k: nat)
    requires TreeOk(n) && Conserved(n)
    requires q < |Ranked(Collect(n), limit)|
    requires |n.path| <= k < |Ranked(Collect(n), limit)[q].path|
    ensures var r := Ranked(Collect(n), limit);
            exists p :: 0 <= p < q && r[p].path == r[q].path[..k]
  {
    var c := Collect(n);
    var j := RankedFrom(c, limit, q);
    var i := AncestorCollected(n, j, k);
    CollectedDistinct(n);
    var p := RankedAhead(c, limit, q, i, j);
  }

  /** What is ranked was collected. */
  lemma RankedFrom(c: seq<Hotspot>, limit: nat, q: nat) returns (j: nat)
    requires q < |Ranked(c, limit)|
    ensures j < |c| && c[j] == Ranked(c, limit)[q]
  {
    SortKeepsElements(Size, c);
    assert Ranked(c, limit)[q] == Sort(Size, c)[q];
    assert Sort(Size, c)[q] in Sort(Size, c);
    j :| 0 <= j < |c| && c[j] == Ranked(c, limit)[q];
  }

  /** What was collected earlier and is at least as large is ranked, and ahead. */
  lemma RankedAhead(c: seq<Hotspot>, limit: nat, q: nat, i: nat, j: nat) returns (p: nat)
    requires Distinct(c) && i < j < |c| && c[i].total >= c[j].total
    requires q < |Ranked(c, limit)| && Ranked(c, limit)[q] == c[j]
    ensures p < q && Ranked(c, limit)[p] == c[i]
  {
    SortIsStable(Size, c, i, j);
    assert Sort(Size, c)[q] == c[j];
    p :| 0 <= p < q && Sort(Size, c)[p] == c[i];
  }

  /** They are the largest: sorted, no more than the limit, all taken from the tree,
      and nothing left out has more issues than anything reported. */
  lemma HotspotsAreLargest(n: Node, limit: nat) returns (omitted: seq<Hotspot>)
    ensures var c, r := Collect(n), Ranked(Collect(n), limit);
            && Descending(Size, r) && |r| == (if |c| <= limit then |c| else limit)
            && multiset(c) == multiset(r) + multiset(omitted)
            && forall i, j | 0 <= i < |omitted| && 0 <= j < |r| :: omitted[i].total <= r[j].total
  {
    var c := Collect(n);
    omitted := LargestKept(Size, c, limit);
    var r := Ranked(c, limit);
    assert forall i, j | 0 <= i < |omitted| && 0 <= j < |r| :: Size(omitted[i]) <= Size(r[j]);
  }

  /** What is built from disk has these paths, when siblings differ in name. */
  ghost predicate DiskOk(d: Disk)
    decreases d
  {
    d.DiskDir? ==>
      && (forall i | 0 <= i < |d.entries| :: DiskOk(d.entries[i]))
      && (forall i, j | 0 <= i < j < |d.entries| :: d.entries[i].name != d.entries[j].name)
  }

  ghost predicate NodesUnder(path: seq<string>, ns: seq<Node>) {
    && (forall i | 0 <= i < |ns| :: ns[i].path == path + [ns[i].name] && TreeOk(ns[i]))
    && (forall i, j | 0 <= i < j < |ns| :: ns[i].name != ns[j].name)
  }

  function Names(ns: seq<Node>): set<string> { set i | 0 <= i < |ns| :: ns[i].name }

  function DiskNames(ds: seq<Disk>): set<string> { set i | 0 <= i < |ds| :: ds[i].name }

  lemma {:induction false} BuildIsOk(path: seq<string>, d: Disk)
    requires DiskOk(d) && Build(path, d).Some?
    ensures TreeOk(Build(path, d).value) && Build(path, d).value.path == path && Build(path, d).value.name == d.name
    decreases d
  {
    if d.DiskDir? {
      BuildAllIsOk(path, d.entries);
      SortKeepsNodesUnder(path, BuildAll(path, d.entries));
      assert NodesUnder(path, Build(path, d).value.children);
    }
  }

  lemma {:induction false} BuildAllIsOk(path: seq<string>, entries: seq<Disk>)
    requires forall i | 0 <= i < |entries| :: DiskOk(entries[i])
    requires forall i, j | 0 <= i < j < |entries| :: entries[i].name != entries[j].name
    ensures NodesUnder(path, BuildAll(path, entries))
    ensures Names(BuildAll(path, entries)) <= DiskNames(entries)
    decreases entries
  {
    if entries != [] {
      var e, rest := entries[0], entries[1..];
      BuildAllIsOk(path, rest);
      var ns := BuildAll(path, rest);
      assert forall i | 0 < i < |entries| :: entries[i] == rest[i - 1];
      assert e.name !in DiskNames(rest);
      assert DiskNames(entries) == {e.name} + DiskNames(rest);
      if !e.excluded && Build(path + [e.name], e).Some? {
        BuildIsOk(path + [e.name], e);
        var n := Build(path + [e.name], e).value;
        assert forall i | 0 <= i < |ns| :: ns[i].name in Names(ns);
        PrependNode(path, n, ns);
      }
    }
  }

  lemma PrependNode(path: seq<string>, n: Node, ns: seq<Node>)
    requires NodesUnder(path, ns) && TreeOk(n) && n.path == path + [n.name] && n.name !in Names(ns)
    ensures NodesUnder(path, [n] + ns) && Names([n] + ns) == {n.name} + Names(ns)
  {
    var all := [n] + ns;
    assert forall i | 0 <= i < |ns| :: ns[i].name in Names(ns);
    assert forall i | 0 < i < |all| :: all[i] == ns[i - 1];
    assert all[0] == n;
    forall x | x in Names(ns)
      ensures x in Names(all)
    {
      var i :| 0 <= i < |ns| && ns[i].name == x;
      assert all[i + 1].name == x;
    }
  }

  lemma {:induction false} InsertKeepsNodesUnder(path: seq<string>, n: Node, ns: seq<Node>)
    requires NodesUnder(path, ns) && TreeOk(n) && n.path == path + [n.name] && n.name !in Names(ns)
    ensures NodesUnder(path, InsertSibling(n, ns)) && Names(InsertSibling(n, ns)) == {n.name} + Names(ns)
  {
    if ns == [] || Precedes(n, ns[0]) {
      PrependNode(path, n, ns);
    } else {
      SplitNodes(path, ns);
      InsertKeepsNodesUnder(path, n, ns[1..]);
      PrependNode(path, ns[0], InsertSibling(n, ns[1..]));
    }
  }

  lemma SplitNodes(path: seq<string>, ns: seq<Node>)
    requires NodesUnder(path, ns) && ns != []
    ensures NodesUnder(path, ns[1..]) && TreeOk(ns[0]) && ns[0].path == path + [ns[0].name]
    ensures ns[0].name !in Names(ns[1..]) && Names(ns) == {ns[0].name} + Names(ns[1..])
  {}

  lemma {:induction false} SortKeepsNodesUnder(path: seq<string>, ns: seq<Node>)
    requires NodesUnder(path, ns)
    ensures NodesUnder(path, SortSiblings(ns)) && Names(SortSiblings(ns)) == Names(ns)
  {
    if ns != [] {
      SplitNodes(path, ns);
      SortKeepsNodesUnder(path, ns[1..]);
      InsertKeepsNodesUnder(path, ns[0], SortSiblings(ns[1..]));
    }
  }

  lemma {:induction false} AttachAllAt(ns: seq<Node>, tags: seq<Tag>, i: nat)
    requires i < |ns|
    ensures AttachAll(ns, tags)[i] == Attach(ns[i], tags)
  {
    if i > 0 { AttachAllAt(ns[1..], tags, i - 1); }
  }

  lemma {:induction false} AttachKeepsTree(n: Node, tags: seq<Tag>)
    requires TreeOk(n)
    ensures var m := Attach(n, tags); TreeOk(m) && m.path == n.path && m.name == n.name
    decreases n
  {
    if n.kind == Directory {
      var children := Attach(n, tags).children;
      assert children == AttachAll(n.children, tags);
      forall i | 0 <= i < |n.children|
        ensures TreeOk(children[i]) && children[i].path == n.path + [children[i].name]
        ensures children[i].name == n.children[i].name
      {
        AttachAllAt(n.children, tags, i);
        AttachKeepsTree(n.children[i], tags);
      }
    }
  }

  /** The premises hold of every tree that is built, with tags or without. */
  lemma BuiltTreesQualify(path: seq<string>, d: Disk, tags: seq<Tag>)
    requires DiskOk(d) && Build(path, d).Some?
    ensures var n := Build(path, d).value;
            TreeOk(n) && Conserved(n) && TreeOk(Attach(n, tags)) && Conserved(Attach(n, tags))
  {
    BuildIsOk(path, d);
    BuildConserves(path, d);
    AttachKeepsTree(Build(path, d).value, tags);
    AttachKeeps(Build(path, d).value, tags);
  }

  /** The files of a tree have different paths, all below its root's. */
  lemma {:induction false} LeavesDistinct(n: Node)
    requires TreeOk(n)
    ensures DistinctPaths(Leaves(n)) && forall l | l in Leaves(n) :: n.path <= l.path
    decreases n, 1
  {
    if n.kind == Directory { LeavesOfDistinct(n.path, n.children); }
  }

  ghost predicate LeafUnder(path: seq<string>, ns: seq<Node>, p: seq<string>) {
    path < p && p[|path|] in Names(ns)
  }

  lemma {:induction false} LeavesOfDistinct(path: seq<string>, ns: seq<Node>)
    requires NodesUnder(path, ns)
    ensures DistinctPaths(LeavesOf(ns)) && forall l | l in LeavesOf(ns) :: LeafUnder(path, ns, l.path)
    decreases ns, 0
  {
    if ns != [] {
      SplitNodes(path, ns);
      LeavesDistinct(ns[0]);
      LeavesOfDistinct(path, ns[1..]);
      var a, b := Leaves(ns[0]), LeavesOf(ns[1..]);
      assert forall l | l in a :: l.path[|path|] == ns[0].path[|path|] == ns[0].name;
      assert forall i | 0 <= i < |a| :: a[i] in a;
      assert forall i | 0 <= i < |b| :: b[i] in b;
    }
  }

  /** So in a tree built from disk the root counts exactly the tags whose file is in it. */
  lemma BuiltTreesCountTags(path: seq<string>, d: Disk, tags: seq<Tag>)
    requires DiskOk(d) && Build(path, d).Some?
    ensures var n := Build(path, d).value;
            DistinctPaths(Leaves(n)) && Attach(n, tags).counts.tags == CountOn(tags, FilePaths(Leaves(n)))
  {
    BuildIsOk(path, d);
    LeavesDistinct(Build(path, d).value);
    TagsOfFiles(Build(path, d).value, tags);
  }
}
