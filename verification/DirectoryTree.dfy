/** The annotated directory tree of src/directory_tree.rs: building, sorting,
    aggregation, and audit tags. */
module DirectoryTree {
  import opened Wrappers

  datatype NodeType = File | Directory

  /** The counters of NodeStats and IssuesSummary. */
  datatype Counts = Counts(
    files: nat, lines: nat, todos: nat, fixmes: nat, tags: nat,
    critical: nat, high: nat, medium: nat, low: nat)
  {
    function Plus(c: Counts): Counts {
      Counts(files + c.files, lines + c.lines, todos + c.todos, fixmes + c.fixmes, tags + c.tags,
             critical + c.critical, high + c.high, medium + c.medium, low + c.low)
    }

    function Issues(): nat { critical + high + medium + low }
  }

  const NONE := Counts(0, 0, 0, 0, 0, 0, 0, 0, 0)

  datatype Node = Node(
    name: string, path: seq<string>, kind: NodeType, counts: Counts, modified: Option<nat>, children: seq<Node>)

  // ------------------------------------------------------------------ building

  /** What is on disk.  A file that cannot be read is left out of the tree; a file
      that is not a source file has no counts. */
  datatype Disk =
    | DiskFile(name: string, excluded: bool, source: bool, readable: bool, counts: Counts, modified: Option<nat>)
    | DiskDir(name: string, excluded: bool, entries: seq<Disk>)

  function Build(path: seq<string>, d: Disk): Option<Node>
    decreases d
  {
    match d
    case DiskFile(name, _, source, readable, counts, modified) =>
      if !source then Some(Node(name, path, File, NONE, None, []))
      else if !readable then None
      else Some(Node(name, path, File, counts, modified, []))
    case DiskDir(name, _, entries) =>
      var children := SortSiblings(BuildAll(path, entries));
      Some(Node(name, path, Directory, Aggregate(NONE, children), Latest(None, children), children))
  }

  function BuildAll(path: seq<string>, entries: seq<Disk>): seq<Node>
    decreases entries
  {
    if entries == [] then []
    else
      var e := entries[0];
      var rest := BuildAll(path, entries[1..]);
      if e.excluded then rest
      else
        match Build(path + [e.name], e)
        case None => rest
        case Some(n) => [n] + rest
  }

  /** Names in lexicographic order. */
  predicate NameLe(a: string, b: string) {
    a == "" || (b != "" && (a[0] < b[0] || (a[0] == b[0] && NameLe(a[1..], b[1..]))))
  }

  /** Directories first, then by name. */
  predicate Precedes(a: Node, b: Node) {
    if a.kind == b.kind then NameLe(a.name, b.name) else a.kind == Directory
  }

  function InsertSibling(n: Node, ns: seq<Node>): seq<Node> {
    if ns == [] || Precedes(n, ns[0]) then [n] + ns else [ns[0]] + InsertSibling(n, ns[1..])
  }

  /** The sort of a directory's children. */
  function SortSiblings(ns: seq<Node>): seq<Node> {
    if ns == [] then [] else InsertSibling(ns[0], SortSiblings(ns[1..]))
  }

  /** The aggregation loop, from the counts gathered so far. */
  function Aggregate(sofar: Counts, children: seq<Node>): Counts
    decreases |children|
  {
    if children == [] then sofar else Aggregate(sofar.Plus(children[0].counts), children[1..])
  }

  function Max(a: nat, b: nat): nat { if a < b then b else a }

  function LaterOf(a: Option<nat>, b: Option<nat>): Option<nat> {
    if b.None? then a else Some(Max(if a.None? then 0 else a.value, b.value))
  }

  function Latest(sofar: Option<nat>, children: seq<Node>): Option<nat>
    decreases |children|
  {
    if children == [] then sofar else Latest(LaterOf(sofar, children[0].modified), children[1..])
  }

  /** build_node. */
  method BuildNode(path: seq<string>, d: Disk) returns (r: Option<Node>)
    ensures r == Build(path, d)
    decreases d
  {
    match d {
      case DiskFile(name, _, source, readable, counts, modified) =>
        if !source { return Some(Node(name, path, File, NONE, None, [])); }
        if !readable { return None; }
        return Some(Node(name, path, File, counts, modified, []));
      case DiskDir(name, _, entries) =>
        var node := AnalyzeDirectory(Node(name, path, Directory, NONE, None, []), entries);
        return Some(node);
    }
  }

  /** analyze_directory: build the children, sort them, then aggregate them into the node. */
  method AnalyzeDirectory(node: Node, entries: seq<Disk>) returns (r: Node)
    ensures var children := SortSiblings(BuildAll(node.path, entries));
            r == node.(counts := Aggregate(node.counts, children), modified := Latest(node.modified, children),
                       children := children)
    decreases entries
  {
    var children: seq<Node> := [];
    for i := 0 to |entries|
      invariant children + BuildAll(node.path, entries[i..]) == BuildAll(node.path, entries)
    {
      var e := entries[i];
      assert entries[i..][1..] == entries[i + 1..];
      if !e.excluded {
        var child := BuildNode(node.path + [e.name], e);
        if child.Some? { children := children + [child.value]; }
      }
    }
    assert children == BuildAll(node.path, entries);
    children := SortSiblings(children);
    var counts, modified := AggregateChildren(node.counts, node.modified, children);
    r := node.(counts := counts, modified := modified, children := children);
  }

  method AggregateChildren(counts0: Counts, modified0: Option<nat>, children: seq<Node>)
    returns (counts: Counts, modified: Option<nat>)
    ensures counts == Aggregate(counts0, children) && modified == Latest(modified0, children)
  {
    counts, modified := counts0, modified0;
    for i := 0 to |children|
      invariant Aggregate(counts, children[i..]) == Aggregate(counts0, children)
      invariant Latest(modified, children[i..]) == Latest(modified0, children)
    {
      var child := children[i];
      assert children[i..][1..] == children[i + 1..];
      counts := counts.Plus(child.counts);
      if child.modified.Some? {
        var sofar := if modified.None? then 0 else modified.value;
        modified := Some(if sofar < child.modified.value then child.modified.value else sofar);
      }
    }
  }

  // ------------------------------------------------------------ sibling order

  lemma {:induction false} NameLeTotal(a: string, b: string)
    ensures NameLe(a, b) || NameLe(b, a)
  {
    if a != "" && b != "" && a[0] == b[0] { NameLeTotal(a[1..], b[1..]); }
  }

  lemma {:induction false} NameLeTransitive(a: string, b: string, c: string)
    requires NameLe(a, b) && NameLe(b, c)
    ensures NameLe(a, c)
  {
    if a != "" && a[0] == b[0] == c[0] { NameLeTransitive(a[1..], b[1..], c[1..]); }
  }

  lemma PrecedesIsOrder(a: Node, b: Node, c: Node)
    ensures Precedes(a, b) || Precedes(b, a)
    ensures Precedes(a, b) && Precedes(b, c) ==> Precedes(a, c)
  {
    NameLeTotal(a.name, b.name);
    if NameLe(a.name, b.name) && NameLe(b.name, c.name) { NameLeTransitive(a.name, b.name, c.name); }
  }

  ghost predicate InOrder(ns: seq<Node>) { forall i, j | 0 <= i < j < |ns| :: Precedes(ns[i], ns[j]) }

  lemma {:induction false} InsertSiblingSorts(n: Node, ns: seq<Node>)
    requires InOrder(ns)
    ensures InOrder(InsertSibling(n, ns)) && multiset(InsertSibling(n, ns)) == multiset(ns) + multiset{n}
  {
    if ns != [] && Precedes(n, ns[0]) {
      forall m | m in ns
        ensures Precedes(n, m)
      {
        PrecedesIsOrder(n, ns[0], m);
      }
      assert [n] + ns == InsertSibling(n, ns);
    } else if ns != [] {
      var rest := InsertSibling(n, ns[1..]);
      InsertSiblingSorts(n, ns[1..]);
      PrecedesIsOrder(n, ns[0], n);
      assert ns == [ns[0]] + ns[1..];
      SameMembers(rest, ns[1..] + [n]);
      forall m | m in rest
        ensures Precedes(ns[0], m)
      {
        if m != n { assert m in ns[1..]; }
      }
    }
  }

  lemma SameMembers(a: seq<Node>, b: seq<Node>)
    requires multiset(a) == multiset(b)
    ensures forall n :: n in a <==> n in b
  {
    forall n
      ensures n in a <==> n in b
    {
      assert n in a <==> n in multiset(a);
      assert n in b <==> n in multiset(b);
    }
  }

  lemma {:induction false} SortIsPermutation(ns: seq<Node>)
    ensures InOrder(SortSiblings(ns)) && multiset(SortSiblings(ns)) == multiset(ns)
  {
    if ns != [] {
      SortIsPermutation(ns[1..]);
      InsertSiblingSorts(ns[0], SortSiblings(ns[1..]));
      assert ns == [ns[0]] + ns[1..];
    }
  }

  /** The children of every directory stand in order. */
  ghost predicate AllInOrder(n: Node)
    decreases n
  {
    InOrder(n.children) && forall c | c in n.children :: AllInOrder(c)
  }

  /** In a built tree every directory lists its directories first and both kinds by
      name, and it lists exactly what its entries were built into. */
  lemma {:induction false} BuiltInOrder(path: seq<string>, d: Disk)
    requires Build(path, d).Some?
    ensures AllInOrder(Build(path, d).value)
    ensures d.DiskDir? ==> multiset(Build(path, d).value.children) == multiset(BuildAll(path, d.entries))
    decreases d
  {
    if d.DiskDir? {
      BuiltAllInOrder(path, d.entries);
      SortIsPermutation(BuildAll(path, d.entries));
      SameMembers(SortSiblings(BuildAll(path, d.entries)), BuildAll(path, d.entries));
    }
  }

  lemma {:induction false} BuiltAllInOrder(path: seq<string>, entries: seq<Disk>)
    ensures forall n | n in BuildAll(path, entries) :: AllInOrder(n)
    decreases entries
  {
    if entries != [] {
      BuiltAllInOrder(path, entries[1..]);
      var e := entries[0];
      if !e.excluded && Build(path + [e.name], e).Some? { BuiltInOrder(path + [e.name], e); }
    }
  }

  // -------------------------------------------------------------- conservation

  /** The files below a node, in preorder. */
  function Leaves(n: Node): seq<Node>
    decreases n
  {
    if n.kind == File then [n] else LeavesOf(n.children)
  }

  function LeavesOf(ns: seq<Node>): seq<Node>
    decreases ns
  {
    if ns == [] then [] else Leaves(ns[0]) + LeavesOf(ns[1..])
  }

  function Sum(ns: seq<Node>): Counts {
    if ns == [] then NONE else ns[0].counts.Plus(Sum(ns[1..]))
  }

  /** The latest modification of any of the nodes. */
  ghost predicate IsLatest(ns: seq<Node>, m: Option<nat>) {
    && (forall n | n in ns && n.modified.Some? :: m.Some? && n.modified.value <= m.value)
    && (m.Some? ==> exists n :: n in ns && n.modified == m)
  }

  /** Every directory's numbers are those of the files below it. */
  ghost predicate Conserved(n: Node)
    decreases n
  {
    && (forall c | c in n.children :: Conserved(c))
    && (n.kind == Directory ==> n.counts == Sum(Leaves(n)) && IsLatest(Leaves(n), n.modified))
  }

  lemma {:induction false} AggregateIsSum(sofar: Counts, ns: seq<Node>)
    ensures Aggregate(sofar, ns) == sofar.Plus(Sum(ns))
    decreases |ns|
  {
    if ns != [] { AggregateIsSum(sofar.Plus(ns[0].counts), ns[1..]); }
  }

  lemma {:induction false} SumConcat(a: seq<Node>, b: seq<Node>)
    ensures Sum(a + b) == Sum(a).Plus(Sum(b))
    decreases |a|
  {
    if a == [] {
      assert a + b == b;
    } else {
      var all, rest := a + b, a[1..];
      assert all[0] == a[0] && all[1..] == rest + b;
      SumConcat(rest, b);
      assert Sum(all) == a[0].counts.Plus(Sum(rest + b));
    }
  }

  /** A node's own numbers are those of its files. */
  ghost predicate Faithful(n: Node) { n.counts == Sum(Leaves(n)) && IsLatest(Leaves(n), n.modified) }

  ghost predicate AllFaithful(ns: seq<Node>) { forall n | n in ns :: Faithful(n) }

  lemma FileFaithful(n: Node)
    requires n.kind == File
    ensures Faithful(n)
  {
    assert [n][1..] == [];
    if n.modified.Some? { assert n in [n]; }
  }

  lemma {:induction false} SumOfLeaves(ns: seq<Node>)
    requires forall n | n in ns :: n.counts == Sum(Leaves(n))
    ensures Sum(LeavesOf(ns)) == Sum(ns)
    decreases |ns|
  {
    if ns != [] {
      assert ns[0] in ns;
      SumConcat(Leaves(ns[0]), LeavesOf(ns[1..]));
      SumOfLeaves(ns[1..]);
    }
  }

  lemma {:induction false} LatestOfLeaves(before: seq<Node>, sofar: Option<nat>, ns: seq<Node>)
    requires AllFaithful(ns)
    requires IsLatest(before, sofar)
    ensures IsLatest(before + LeavesOf(ns), Latest(sofar, ns))
    decreases |ns|
  {
    if ns == [] {
      assert before + [] == before;
    } else {
      var all := before + Leaves(ns[0]);
      var next := LaterOf(sofar, ns[0].modified);
      assert ns[0] in ns;
      LatestOfLeaves(all, next, ns[1..]);
      assert all + LeavesOf(ns[1..]) == before + LeavesOf(ns);
    }
  }

  /** Aggregating faithful children makes a faithful directory. */
  lemma DirectoryFaithful(n: Node)
    requires n.kind == Directory && AllFaithful(n.children)
    requires n.counts == Aggregate(NONE, n.children) && n.modified == Latest(None, n.children)
    ensures Faithful(n)
  {
    FaithfulSums(n.children);
    DirectorySums(n);
    LatestOfLeaves([], None, n.children);
    assert [] + LeavesOf(n.children) == LeavesOf(n.children) == Leaves(n);
  }

  lemma DirectorySums(n: Node)
    requires n.kind == Directory && n.counts == Aggregate(NONE, n.children)
    requires Sum(LeavesOf(n.children)) == Sum(n.children)
    ensures n.counts == Sum(Leaves(n))
  {
    AggregateIsSum(NONE, n.children);
    NonePlus(Sum(n.children));
  }

  lemma FaithfulSums(ns: seq<Node>)
    requires AllFaithful(ns)
    ensures Sum(LeavesOf(ns)) == Sum(ns)
  {
    forall n | n in ns
      ensures n.counts == Sum(Leaves(n))
    {
      assert Faithful(n);
    }
    SumOfLeaves(ns);
  }

  lemma NonePlus(c: Counts)
    ensures NONE.Plus(c) == c
  {}

  lemma {:induction false} BuildConserves(path: seq<string>, d: Disk)
    requires Build(path, d).Some?
    ensures Conserved(Build(path, d).value) && Faithful(Build(path, d).value)
    decreases d
  {
    var n := Build(path, d).value;
    if n.kind == File {
      FileFaithful(n);
    } else {
      BuildAllConserves(path, d.entries);
      SortIsPermutation(BuildAll(path, d.entries));
      SameMembers(n.children, BuildAll(path, d.entries));
      DirectoryFaithful(n);
    }
  }

  lemma {:induction false} BuildAllConserves(path: seq<string>, entries: seq<Disk>)
    ensures forall n | n in BuildAll(path, entries) :: Conserved(n) && Faithful(n)
    decreases entries
  {
    if entries != [] {
      BuildAllConserves(path, entries[1..]);
      var e := entries[0];
      if !e.excluded && Build(path + [e.name], e).Some? { BuildConserves(path + [e.name], e); }
    }
  }

  /** m is n or a node somewhere below it. */
  ghost predicate InTree(n: Node, m: Node)
    decreases n
  {
    m == n || exists c :: c in n.children && InTree(c, m)
  }

  /** The nine counters. */
  datatype Counter = Files | Lines | Todos | Fixmes | AuditTags | Critical | High | Medium | Low

  function Get(c: Counts, k: Counter): nat {
    match k
    case Files => c.files
    case Lines => c.lines
    case Todos => c.todos
    case Fixmes => c.fixmes
    case AuditTags => c.tags
    case Critical => c.critical
    case High => c.high
    case Medium => c.medium
    case Low => c.low
  }

  /** One counter, added up over some nodes. */
  function Total(k: Counter, ns: seq<Node>): nat {
    if ns == [] then 0 else Get(ns[0].counts, k) + Total(k, ns[1..])
  }

  lemma {:induction false} SumIsTotal(k: Counter, ns: seq<Node>)
    ensures Get(Sum(ns), k) == Total(k, ns)
  {
    if ns != [] { SumIsTotal(k, ns[1..]); }
  }

  /** Conservation in numbers: in every directory of a conserved tree, each counter is
      the sum of that counter over the files below it. */
  lemma {:induction false} CountersAreTotals(n: Node, m: Node, k: Counter)
    requires Conserved(n) && InTree(n, m) && m.kind == Directory
    ensures Get(m.counts, k) == Total(k, Leaves(m))
    decreases n
  {
    if m == n {
      SumIsTotal(k, Leaves(n));
    } else {
      var c :| c in n.children && InTree(c, m);
      CountersAreTotals(c, m, k);
    }
  }

  // --------------------------------------------------------------------- tags

  datatype Tag = Tag(file: seq<string>, text: string)

  /** How many of the tags are on one of the paths. */
  function CountOn(tags: seq<Tag>, paths: set<seq<string>>): nat {
    if tags == [] then 0 else (if tags[0].file in paths then 1 else 0) + CountOn(tags[1..], paths)
  }

  /** Counting tags is counting their places in the list. */
  lemma {:induction false} CountOnIsSize(tags: seq<Tag>, paths: set<seq<string>>)
    ensures CountOn(tags, paths) == |set i: nat | i < |tags| && tags[i].file in paths|
    decreases |tags|
  {
    var all := set i: nat | i < |tags| && tags[i].file in paths;
    if tags == [] {
      assert all == {};
    } else {
      var n, front := |tags| - 1, tags[..|tags| - 1];
      var before := set i: nat | i < |front| && front[i].file in paths;
      CountOnIsSize(front, paths);
      CountSnoc(front, tags[n], paths);
      assert tags == front + [tags[n]];
      assert forall i: nat :: i in all <==> i in before || (i == n && tags[n].file in paths);
      OneMore(all, before, n, tags[n].file in paths);
    }
  }

  lemma OneMore(all: set<nat>, before: set<nat>, n: nat, more: bool)
    requires n !in before && forall i: nat :: i in all <==> i in before || (i == n && more)
    ensures |all| == |before| + if more then 1 else 0
  {
    assert all == if more then before + {n} else before;
  }

  lemma {:induction false} CountSnoc(tags: seq<Tag>, t: Tag, paths: set<seq<string>>)
    ensures CountOn(tags + [t], paths) == CountOn(tags, paths) + if t.file in paths then 1 else 0
  {
    if tags == [] {
      assert tags + [t] == [t] && [t][1..] == [];
    } else {
      assert (tags + [t])[1..] == tags[1..] + [t];
      CountSnoc(tags[1..], t, paths);
    }
  }

  function Attach(n: Node, tags: seq<Tag>): Node
    decreases n
  {
    if n.kind == File then n.(counts := n.counts.(tags := CountOn(tags, {n.path})))
    else
      var children := AttachAll(n.children, tags);
      n.(children := children, counts := n.counts.(tags := Sum(children).tags))
  }

  function AttachAll(ns: seq<Node>, tags: seq<Tag>): (r: seq<Node>)
    ensures |r| == |ns|
    decreases ns
  {
    if ns == [] then [] else [Attach(ns[0], tags)] + AttachAll(ns[1..], tags)
  }

  /** attach_tags, which overwrites the children and then the count. */
  method AttachTags(n: Node, tags: seq<Tag>) returns (r: Node)
    ensures r == Attach(n, tags)
    decreases n
  {
    if n.kind == File {
      var fileTags := 0;
      for i := 0 to |tags|
        invariant fileTags + CountOn(tags[i..], {n.path}) == CountOn(tags, {n.path})
      {
        assert tags[i..][1..] == tags[i + 1..];
        if tags[i].file == n.path { fileTags := fileTags + 1; }
      }
      return n.(counts := n.counts.(tags := fileTags));
    }
    var children: seq<Node> := [];
    var total := 0;
    for i := 0 to |n.children|
      invariant children + AttachAll(n.children[i..], tags) == AttachAll(n.children, tags)
      invariant total + Sum(AttachAll(n.children[i..], tags)).tags == Sum(AttachAll(n.children, tags)).tags
    {
      assert n.children[i..][1..] == n.children[i + 1..];
      var child := AttachTags(n.children[i], tags);
      assert AttachAll(n.children[i..], tags)[1..] == AttachAll(n.children[i + 1..], tags);
      children := children + [child];
      total := total + child.counts.tags;
    }
    assert children == AttachAll(n.children, tags);
    return n.(children := children, counts := n.counts.(tags := total));
  }

  function FilePaths(ns: seq<Node>): set<seq<string>> { set n | n in ns :: n.path }

  ghost predicate DistinctPaths(ns: seq<Node>) {
    forall i, j | 0 <= i < j < |ns| :: ns[i].path != ns[j].path
  }

  lemma {:induction false} CountDisjoint(tags: seq<Tag>, a: set<seq<string>>, b: set<seq<string>>)
    requires a !! b
    ensures CountOn(tags, a + b) == CountOn(tags, a) + CountOn(tags, b)
  {
    if tags != [] { CountDisjoint(tags[1..], a, b); }
  }

  lemma {:induction false} CountNone(tags: seq<Tag>)
    ensures CountOn(tags, {}) == 0
  {
    if tags != [] { CountNone(tags[1..]); }
  }

  lemma {:induction false} TagsOfFiles(n: Node, tags: seq<Tag>)
    requires DistinctPaths(Leaves(n))
    ensures Attach(n, tags).counts.tags == CountOn(tags, FilePaths(Leaves(n)))
    decreases n, 0
  {
    if n.kind == File {
      assert FilePaths(Leaves(n)) == {n.path};
    } else {
      TagsOfAll(n.children, tags);
    }
  }

  lemma {:induction false} TagsOfAll(ns: seq<Node>, tags: seq<Tag>)
    requires DistinctPaths(LeavesOf(ns))
    ensures Sum(AttachAll(ns, tags)).tags == CountOn(tags, FilePaths(LeavesOf(ns)))
    decreases ns, 0
  {
    if ns == [] {
      CountNone(tags);
      assert FilePaths(LeavesOf(ns)) == {};
    } else {
      var a, b := Leaves(ns[0]), LeavesOf(ns[1..]);
      PathsOfConcat(a, b);
      TagsOfFiles(ns[0], tags);
      TagsOfAll(ns[1..], tags);
      CountDisjoint(tags, FilePaths(a), FilePaths(b));
      assert AttachAll(ns, tags)[1..] == AttachAll(ns[1..], tags);
    }
  }

  lemma PathsOfConcat(a: seq<Node>, b: seq<Node>)
    requires DistinctPaths(a + b)
    ensures DistinctPaths(a) && DistinctPaths(b) && FilePaths(a) !! FilePaths(b)
    ensures FilePaths(a + b) == FilePaths(a) + FilePaths(b)
  {
    var all := a + b;
    assert forall i | 0 <= i < |a| :: all[i] == a[i];
    assert forall i | 0 <= i < |b| :: all[|a| + i] == b[i];
    forall x, y | x in a && y in b
      ensures x.path != y.path
    {
      var i :| 0 <= i < |a| && a[i] == x;
      var j :| 0 <= j < |b| && b[j] == y;
      assert all[i] == x && all[|a| + j] == y;
    }
  }

  /** After attaching, the tags of every directory are again the sum over its files,
      and nothing but tag counts has changed. */
  lemma {:induction false} AttachKeeps(n: Node, tags: seq<Tag>)
    requires Conserved(n)
    ensures Conserved(Attach(n, tags)) && Attach(n, tags).modified == n.modified
    ensures Attach(n, tags).counts.(tags := 0) == n.counts.(tags := 0)
    ensures Sum(Leaves(Attach(n, tags))).(tags := 0) == Sum(Leaves(n)).(tags := 0)
    ensures Attach(n, tags).counts.tags == Sum(Leaves(Attach(n, tags))).tags
    ensures forall m :: IsLatest(Leaves(n), m) ==> IsLatest(Leaves(Attach(n, tags)), m)
    decreases n, 0
  {
    var r := Attach(n, tags);
    AttachSameTimes(n, tags);
    if n.kind == File {
      assert [r][1..] == [] && [n][1..] == [];
      assert n.children == r.children;
    } else {
      AttachAllKeeps(n.children, tags);
    }
  }

  lemma {:induction false} AttachAllKeeps(ns: seq<Node>, tags: seq<Tag>)
    requires forall n | n in ns :: Conserved(n)
    ensures var rs := AttachAll(ns, tags);
            && (forall r | r in rs :: Conserved(r))
            && Sum(LeavesOf(rs)).(tags := 0) == Sum(LeavesOf(ns)).(tags := 0)
            && Sum(rs).tags == Sum(LeavesOf(rs)).tags
    decreases ns, 0
  {
    if ns != [] {
      assert ns[0] in ns;
      AttachKeeps(ns[0], tags);
      AttachAllKeeps(ns[1..], tags);
      var rs := AttachAll(ns, tags);
      assert rs[1..] == AttachAll(ns[1..], tags);
      SumConcat(Leaves(ns[0]), LeavesOf(ns[1..]));
      SumConcat(Leaves(rs[0]), LeavesOf(rs[1..]));
      PlusButTags(Sum(Leaves(rs[0])), Sum(LeavesOf(rs[1..])), Sum(Leaves(ns[0])), Sum(LeavesOf(ns[1..])));
    }
  }

  lemma PlusButTags(a: Counts, b: Counts, c: Counts, d: Counts)
    requires a.(tags := 0) == c.(tags := 0) && b.(tags := 0) == d.(tags := 0)
    ensures a.Plus(b).(tags := 0) == c.Plus(d).(tags := 0)
  {}

  ghost predicate SameTimes(a: seq<Node>, b: seq<Node>) {
    |a| == |b| && forall i | 0 <= i < |a| :: a[i].modified == b[i].modified
  }

  lemma {:induction false} AttachSameTimes(n: Node, tags: seq<Tag>)
    ensures SameTimes(Leaves(n), Leaves(Attach(n, tags)))
    decreases n, 0
  {
    if n.kind != File { AttachAllSameTimes(n.children, tags); }
  }

  lemma {:induction false} AttachAllSameTimes(ns: seq<Node>, tags: seq<Tag>)
    ensures SameTimes(LeavesOf(ns), LeavesOf(AttachAll(ns, tags)))
    decreases ns, 0
  {
    if ns != [] {
      AttachSameTimes(ns[0], tags);
      AttachAllSameTimes(ns[1..], tags);
      assert AttachAll(ns, tags)[1..] == AttachAll(ns[1..], tags);
    }
  }

  /** Conservation, for every tree on disk: in the built and tagged tree, each
      directory's file, line, todo, fixme, tag and issue counts are the sums over the
      files below it and its time is their latest; and when no two files share a path,
      the root counts exactly the tags whose file is in the tree. */
  lemma TreeConserves(path: seq<string>, d: Disk, tags: seq<Tag>)
    requires Build(path, d).Some?
    ensures var n := Build(path, d).value;
            && Conserved(n) && Conserved(Attach(n, tags))
            && (DistinctPaths(Leaves(n)) ==> Attach(n, tags).counts.tags == CountOn(tags, FilePaths(Leaves(n))))
  {
    var n := Build(path, d).value;
    BuildConserves(path, d);
    AttachKeeps(n, tags);
    if DistinctPaths(Leaves(n)) { TagsOfFiles(n, tags); }
  }
}
