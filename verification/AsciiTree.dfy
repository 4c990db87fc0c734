/** to_ascii_tree of src/directory_tree.rs: a printer from whose output the
    depth-limited tree can be read back. */
module AsciiTree {
  import opened DirectoryTree

  const BLANK := "    "
  const GUIDE := "\U{2502}   "
  const LAST := "\U{2514}\U{2500}\U{2500} "
  const BRANCH := "\U{251C}\U{2500}\U{2500} "

  function Decimal(n: nat): (s: string)
    ensures forall i | 0 <= i < |s| :: '0' <= s[i] <= '9'
  {
    var digit := [('0' as int + n % 10) as char];
    if n < 10 then digit else Decimal(n / 10) + digit
  }

  function Badge(caption: string, n: nat, close: string): string {
    if n > 0 then caption + Decimal(n) + close else ""
  }

  function Joined(parts: seq<string>): string {
    if parts == [] then "" else Joined(parts[..|parts| - 1]) + parts[|parts| - 1]
  }

  /** Icon, name and indicators. */
  function Parts(n: Node): (ps: seq<string>)
    ensures |ps| == 6
  {
    [if n.kind == Directory then "\U{1F4C1}" else "\U{1F4C4}", n.name,
     Badge(" [", n.counts.lines, " LOC]"), Badge(" \U{1F534}", n.counts.critical, ""),
     Badge(" \U{1F7E0}", n.counts.high, ""), Badge(" \U{1F3F7}\U{FE0F}", n.counts.tags, "")]
  }

  function Label(n: Node): string { Joined(Parts(n)) }

  /** Appending the next part of a label. */
  lemma NextPart(n: Node, k: nat, head: string)
    requires k < 6
    ensures head + Joined(Parts(n)[..k]) + Parts(n)[k] == head + Joined(Parts(n)[..k + 1])
  {
    assert Parts(n)[..k + 1][..k] == Parts(n)[..k];
  }

  /** The text of a node, given how many levels may still be shown. */
  function Render(n: Node, prefix: string, isLast: bool, levels: nat): string
    decreases n
  {
    if levels == 0 then ""
    else
      prefix + (if isLast then LAST else BRANCH) + " " + Label(n) + "\n"
      + (if n.kind == Directory then
           RenderAll(n.children, prefix + (if isLast then BLANK else GUIDE), levels - 1)
         else "")
  }

  function RenderAll(ns: seq<Node>, prefix: string, levels: nat): string
    decreases ns
  {
    if ns == [] then ""
    else Render(ns[0], prefix, |ns| == 1, levels) + RenderAll(ns[1..], prefix, levels)
  }

  /** render_ascii_node, which appends to the caller's string. */
  method RenderAsciiNode(n: Node, output: string, prefix: string, isLast: bool, depth: nat, maxDepth: nat)
    returns (out: string)
    ensures out == output + Render(n, prefix, isLast, if depth > maxDepth then 0 else maxDepth - depth + 1)
    decreases n, 1
  {
    out := output;
    if depth > maxDepth {
      return;
    }
    var info := NodeLine(n, prefix, isLast);
    out := out + info;
    out := out + "\n";
    ghost var below := "";
    if n.kind == Directory {
      var childPrefix := prefix + (if isLast then BLANK else GUIDE);
      below := RenderAll(n.children, childPrefix, maxDepth - depth);
      out := RenderChildren(n, out, childPrefix, depth + 1, maxDepth);
    }
    assert Render(n, prefix, isLast, maxDepth - depth + 1) == info + "\n" + below;
    assert output + info + "\n" + below == output + (info + "\n" + below);
  }

  /** The loop over the children of a directory. */
  method RenderChildren(n: Node, output: string, prefix: string, depth: nat, maxDepth: nat) returns (out: string)
    ensures out == output + RenderAll(n.children, prefix, if depth > maxDepth then 0 else maxDepth - depth + 1)
    decreases n, 0
  {
    out := output;
    ghost var levels := if depth > maxDepth then 0 else maxDepth - depth + 1;
    assert n.children[0..] == n.children;
    for i := 0 to |n.children|
      invariant out + RenderAll(n.children[i..], prefix, levels) == output + RenderAll(n.children, prefix, levels)
    {
      ghost var before := out;
      var isLastChild := i == |n.children| - 1;
      out := RenderAsciiNode(n.children[i], out, prefix, isLastChild, depth, maxDepth);
      RenderAllCons(n.children, i, prefix, levels, before);
    }
    assert out + "" == out;
  }

  lemma RenderAllCons(ns: seq<Node>, i: nat, prefix: string, levels: nat, before: string)
    requires i < |ns|
    ensures before + Render(ns[i], prefix, i == |ns| - 1, levels) + RenderAll(ns[i + 1..], prefix, levels)
         == before + RenderAll(ns[i..], prefix, levels)
  {
    assert ns[i..][1..] == ns[i + 1..];
  }

  /** The text of one line, without its newline. */
  method NodeLine(n: Node, prefix: string, isLast: bool) returns (info: string)
    ensures info == prefix + (if isLast then LAST else BRANCH) + " " + Label(n)
  {
    var connector := if isLast then LAST else BRANCH;
    ghost var head := prefix + connector + " ";
    assert head + "" == head;
    NextPart(n, 0, head);
    var icon := if n.kind == Directory then "\U{1F4C1}" else "\U{1F4C4}";
    info := prefix + connector + " " + icon;
    NextPart(n, 1, head);
    info := info + n.name;
    info := AddIndicators(n, info, head);
  }

  method AddIndicators(n: Node, line: string, ghost head: string) returns (info: string)
    requires line == head + Joined(Parts(n)[..2])
    ensures info == head + Label(n)
  {
    NextPart(n, 2, head);
    info := AppendBadge(line, " [", n.counts.lines, " LOC]");
    NextPart(n, 3, head);
    info := AppendBadge(info, " \U{1F534}", n.counts.critical, "");
    NextPart(n, 4, head);
    info := AppendBadge(info, " \U{1F7E0}", n.counts.high, "");
    NextPart(n, 5, head);
    info := AppendBadge(info, " \U{1F3F7}\U{FE0F}", n.counts.tags, "");
    assert Parts(n)[..6] == Parts(n);
  }

  method AppendBadge(info: string, caption: string, n: nat, close: string) returns (r: string)
    ensures r == info + Badge(caption, n, close)
  {
    r := info;
    if n > 0 {
      r := r + (caption + Decimal(n) + close);
    }
  }

  method ToAsciiTree(n: Node, maxDepth: nat) returns (out: string)
    ensures out == Render(n, "", true, maxDepth + 1)
  {
    out := RenderAsciiNode(n, "", "", true, 0, maxDepth);
  }

  // -------------------------------------------------------------------- lines

  /** One line: for each ancestor whether it is a last child (its cell is blank) or
      not (its cell is a guide), whether the node itself is one, and the caption. */
  datatype Line = Line(cells: seq<bool>, last: bool, caption: string)

  function CellsText(cells: seq<bool>): string {
    if cells == [] then "" else (if cells[0] then BLANK else GUIDE) + CellsText(cells[1..])
  }

  function LineText(l: Line): string {
    CellsText(l.cells) + (if l.last then LAST else BRANCH) + " " + l.caption + "\n"
  }

  function LinesText(ls: seq<Line>): string {
    if ls == [] then "" else LineText(ls[0]) + LinesText(ls[1..])
  }

  function Lines(n: Node, cells: seq<bool>, isLast: bool, levels: nat): seq<Line>
    decreases n
  {
    if levels == 0 then []
    else
      [Line(cells, isLast, Label(n))]
      + (if n.kind == Directory then LinesAll(n.children, cells + [isLast], levels - 1) else [])
  }

  function LinesAll(ns: seq<Node>, cells: seq<bool>, levels: nat): seq<Line>
    decreases ns
  {
    if ns == [] then [] else Lines(ns[0], cells, |ns| == 1, levels) + LinesAll(ns[1..], cells, levels)
  }

  lemma {:induction false} CellsTextSnoc(cells: seq<bool>, b: bool)
    ensures CellsText(cells + [b]) == CellsText(cells) + (if b then BLANK else GUIDE)
  {
    if cells == [] {
      assert cells + [b] == [b] && [b][1..] == [];
      assert CellsText([b]) == (if b then BLANK else GUIDE) + "";
    } else {
      assert (cells + [b])[1..] == cells[1..] + [b];
      CellsTextSnoc(cells[1..], b);
    }
  }

  lemma {:induction false} LinesTextConcat(a: seq<Line>, b: seq<Line>)
    ensures LinesText(a + b) == LinesText(a) + LinesText(b)
  {
    if a == [] {
      assert a + b == b;
    } else {
      assert (a + b)[1..] == a[1..] + b;
      LinesTextConcat(a[1..], b);
    }
  }

  lemma {:induction false} RenderIsLines(n: Node, cells: seq<bool>, isLast: bool, levels: nat)
    ensures Render(n, CellsText(cells), isLast, levels) == LinesText(Lines(n, cells, isLast, levels))
    decreases n, 1
  {
    if levels > 0 {
      var l := Line(cells, isLast, Label(n));
      var below := if n.kind == Directory then LinesAll(n.children, cells + [isLast], levels - 1) else [];
      CellsTextSnoc(cells, isLast);
      RenderAllIsLines(n.children, cells + [isLast], levels - 1);
      assert ([l] + below)[1..] == below;
    }
  }

  lemma {:induction false} RenderAllIsLines(ns: seq<Node>, cells: seq<bool>, levels: nat)
    ensures RenderAll(ns, CellsText(cells), levels) == LinesText(LinesAll(ns, cells, levels))
    decreases ns, 1
  {
    if ns != [] {
      RenderIsLines(ns[0], cells, |ns| == 1, levels);
      RenderAllIsLines(ns[1..], cells, levels);
      LinesTextConcat(Lines(ns[0], cells, |ns| == 1, levels), LinesAll(ns[1..], cells, levels));
    }
  }

  // ------------------------------------------------- which lines, in what order

  type Address = seq<nat>

  /** The nodes within so many levels, in preorder, by the child indices that lead to
      them; nothing is shown below a file. */
  function Addresses(n: Node, levels: nat): seq<Address>
    decreases n
  {
    if levels == 0 then []
    else [[]] + (if n.kind == Directory then AddressesFrom(n.children, 0, levels - 1) else [])
  }

  function AddressesFrom(ns: seq<Node>, first: nat, levels: nat): seq<Address>
    decreases ns
  {
    if ns == [] then [] else Prefixed(first, Addresses(ns[0], levels)) + AddressesFrom(ns[1..], first + 1, levels)
  }

  function Prefixed(i: nat, s: seq<Address>): (r: seq<Address>)
    ensures |r| == |s| && forall k | 0 <= k < |s| :: r[k] == [i] + s[k]
  {
    seq(|s|, k requires 0 <= k < |s| => [i] + s[k])
  }

  predicate HasNode(n: Node, a: Address)
    decreases |a|
  {
    a == [] || (a[0] < |n.children| && HasNode(n.children[a[0]], a[1..]))
  }

  function NodeAt(n: Node, a: Address): Node
    requires HasNode(n, a)
    decreases |a|
  {
    if a == [] then n else NodeAt(n.children[a[0]], a[1..])
  }

  /** For every node on the way down, itself included: is it a last child? */
  function Flags(n: Node, isLast: bool, a: Address): seq<bool>
    requires HasNode(n, a)
    decreases |a|
  {
    [isLast] + (if a == [] then [] else Flags(n.children[a[0]], a[0] == |n.children| - 1, a[1..]))
  }

  /** Line i shows the i-th node in preorder, behind one cell per ancestor. */
  ghost predicate LineShows(l: Line, cells: seq<bool>, n: Node, isLast: bool, a: Address) {
    HasNode(n, a) && l.caption == Label(NodeAt(n, a)) && l.cells + [l.last] == cells + Flags(n, isLast, a)
  }

  ghost predicate AllShow(ls: seq<Line>, cells: seq<bool>, n: Node, isLast: bool, ads: seq<Address>) {
    |ls| == |ads| && forall i | 0 <= i < |ads| :: LineShows(ls[i], cells, n, isLast, ads[i])
  }

  lemma {:induction false} LinesShowNodes(n: Node, cells: seq<bool>, isLast: bool, levels: nat)
    ensures AllShow(Lines(n, cells, isLast, levels), cells, n, isLast, Addresses(n, levels))
    decreases n, 1
  {
    if levels > 0 {
      var l := Line(cells, isLast, Label(n));
      assert LineShows(l, cells, n, isLast, []);
      if n.kind == Directory {
        LinesShowChildren(n, 0, cells, isLast, levels - 1);
        assert n.children[0..] == n.children;
      }
    }
  }

  lemma {:induction false} LinesShowChildren(n: Node, k: nat, cells: seq<bool>, isLast: bool, levels: nat)
    requires k <= |n.children|
    ensures AllShow(LinesAll(n.children[k..], cells + [isLast], levels), cells, n, isLast,
                    AddressesFrom(n.children[k..], k, levels))
    decreases n, 0, |n.children| - k
  {
    if k < |n.children| {
      var c, last := n.children[k], k == |n.children| - 1;
      assert n.children[k..][1..] == n.children[k + 1..];
      LinesShowNodes(c, cells + [isLast], last, levels);
      ChildLinesShow(Lines(c, cells + [isLast], last, levels), cells, n, isLast, k, Addresses(c, levels));
      LinesShowChildren(n, k + 1, cells, isLast, levels);
      ShowConcat(Lines(c, cells + [isLast], last, levels), LinesAll(n.children[k + 1..], cells + [isLast], levels),
                 cells, n, isLast,
                 Prefixed(k, Addresses(c, levels)), AddressesFrom(n.children[k + 1..], k + 1, levels));
    }
  }

  lemma ShowConcat(ls1: seq<Line>, ls2: seq<Line>, cells: seq<bool>, n: Node, isLast: bool,
                   ads1: seq<Address>, ads2: seq<Address>)
    requires AllShow(ls1, cells, n, isLast, ads1) && AllShow(ls2, cells, n, isLast, ads2)
    ensures AllShow(ls1 + ls2, cells, n, isLast, ads1 + ads2)
  {}

  /** Seen from the parent, the addresses get the child's index in front. */
  lemma ChildLinesShow(ls: seq<Line>, cells: seq<bool>, n: Node, isLast: bool, k: nat, ads: seq<Address>)
    requires k < |n.children|
    requires AllShow(ls, cells + [isLast], n.children[k], k == |n.children| - 1, ads)
    ensures AllShow(ls, cells, n, isLast, Prefixed(k, ads))
  {
    forall i | 0 <= i < |ads|
      ensures LineShows(ls[i], cells, n, isLast, Prefixed(k, ads)[i])
    {
      var a := [k] + ads[i];
      assert a[1..] == ads[i];
      ChildLineShows(ls[i], cells, n, isLast, a);
    }
  }

  lemma ChildLineShows(l: Line, cells: seq<bool>, n: Node, isLast: bool, a: Address)
    requires a != [] && a[0] < |n.children|
    requires LineShows(l, cells + [isLast], n.children[a[0]], a[0] == |n.children| - 1, a[1..])
    ensures LineShows(l, cells, n, isLast, a)
  {
    var f := Flags(n.children[a[0]], a[0] == |n.children| - 1, a[1..]);
    assert HasNode(n, a) && NodeAt(n, a) == NodeAt(n.children[a[0]], a[1..]);
    assert Flags(n, isLast, a) == [isLast] + f;
    assert cells + [isLast] + f == cells + ([isLast] + f);
  }

  /** A flag says whether the node at that depth is the last child of its parent. */
  lemma {:induction false} FlagsMeanLastChild(n: Node, isLast: bool, a: Address, j: nat)
    requires HasNode(n, a) && j <= |a|
    ensures |Flags(n, isLast, a)| == |a| + 1
    ensures j == 0 ==> Flags(n, isLast, a)[0] == isLast
    ensures j > 0 ==> HasNode(n, a[..j - 1])
                      && (Flags(n, isLast, a)[j] <==> a[j - 1] == |NodeAt(n, a[..j - 1]).children| - 1)
    decreases |a|
  {
    if a != [] {
      var c, last := n.children[a[0]], a[0] == |n.children| - 1;
      if j > 0 {
        FlagsMeanLastChild(c, last, a[1..], j - 1);
        if j > 1 { assert a[..j - 1][1..] == a[1..][..j - 2]; }
      } else {
        FlagsMeanLastChild(c, last, a[1..], 0);
      }
    }
  }

  // ------------------------------------------------------------- reading it back

  /** What is visible of a tree. */
  datatype Shape = Shape(caption: string, below: seq<Shape>)

  function ShapeOf(n: Node, levels: nat): Shape
    requires levels > 0
    decreases n
  {
    Shape(Label(n), if n.kind == Directory && levels > 1 then ShapesOf(n.children, levels - 1) else [])
  }

  function ShapesOf(ns: seq<Node>, levels: nat): seq<Shape>
    requires levels > 0
    decreases ns
  {
    if ns == [] then [] else [ShapeOf(ns[0], levels)] + ShapesOf(ns[1..], levels)
  }

  /** The text up to the first newline, and what follows it. */
  function UpToNewline(s: string): (string, string) {
    if s == "" then ("", "")
    else if s[0] == '\n' then ("", s[1..])
    else
      var (line, rest) := UpToNewline(s[1..]);
      ([s[0]] + line, rest)
  }

  /** Reads one line, cells first; a connector starts with a corner or a tee. */
  function ReadLine(s: string): (Line, string)
    decreases |s|
  {
    if |s| < 5 then (Line([], true, ""), "")
    else if s[0] == LAST[0] || s[0] == BRANCH[0] then
      var (caption, rest) := UpToNewline(s[5..]);
      (Line([], s[0] == LAST[0], caption), rest)
    else
      var (l, rest) := ReadLine(s[4..]);
      (Line([s[0] == ' '] + l.cells, l.last, l.caption), rest)
  }

  function ReadLines(s: string): seq<Line>
    decreases |s|
  {
    var (l, rest) := ReadLine(s);
    if s == "" || |rest| >= |s| then [] else [l] + ReadLines(rest)
  }

  /** Rebuilds the trees whose roots stand at depth d, from the front of the lines. */
  function Forest(ls: seq<Line>, d: nat): (r: (seq<Shape>, seq<Line>))
    ensures |r.1| <= |ls|
    decreases |ls|
  {
    if ls == [] || |ls[0].cells| != d then ([], ls)
    else
      var (below, rest) := Forest(ls[1..], d + 1);
      var (more, end) := Forest(rest, d);
      ([Shape(ls[0].caption, below)] + more, end)
  }

  function Recover(s: string): seq<Shape> { Forest(ReadLines(s), 0).0 }

  predicate NoNewline(s: string) { forall i | 0 <= i < |s| :: s[i] != '\n' }

  ghost predicate NamesOk(n: Node)
    decreases n
  {
    NoNewline(n.name) && forall c | c in n.children :: NamesOk(c)
  }

  lemma LabelHasNoNewline(n: Node)
    requires NoNewline(n.name)
    ensures NoNewline(Label(n))
  {
    JoinedHasNoNewline(Parts(n));
  }

  lemma {:induction false} JoinedHasNoNewline(parts: seq<string>)
    requires forall i | 0 <= i < |parts| :: NoNewline(parts[i])
    ensures NoNewline(Joined(parts))
  {
    if parts != [] { JoinedHasNoNewline(parts[..|parts| - 1]); }
  }

  lemma {:induction false} ReadsToNewline(caption: string, rest: string)
    requires NoNewline(caption)
    ensures UpToNewline(caption + "\n" + rest) == (caption, rest)
  {
    var s := caption + "\n" + rest;
    if caption == "" {
      assert s[1..] == rest;
    } else {
      assert s[1..] == caption[1..] + "\n" + rest;
      ReadsToNewline(caption[1..], rest);
      assert [caption[0]] + caption[1..] == caption;
    }
  }

  lemma {:induction false} ReadsLine(l: Line, rest: string)
    requires NoNewline(l.caption)
    ensures ReadLine(LineText(l) + rest) == (l, rest) && LineText(l) != ""
    decreases |l.cells|
  {
    if l.cells == [] {
      ReadsConnector(l, rest);
    } else {
      var l2 := l.(cells := l.cells[1..]);
      ReadsLine(l2, rest);
      LineTextCons(l);
      assert (if l.cells[0] then BLANK else GUIDE) + LineText(l2) + rest
          == (if l.cells[0] then BLANK else GUIDE) + (LineText(l2) + rest);
      assert [l.cells[0]] + l.cells[1..] == l.cells;
    }
  }

  lemma LineTextCons(l: Line)
    requires l.cells != []
    ensures LineText(l) == (if l.cells[0] then BLANK else GUIDE) + LineText(l.(cells := l.cells[1..]))
  {
    var tail := (if l.last then LAST else BRANCH) + " " + l.caption + "\n";
    assert LineText(l) == CellsText(l.cells) + tail;
    assert LineText(l.(cells := l.cells[1..])) == CellsText(l.cells[1..]) + tail;
  }

  lemma ReadsConnector(l: Line, rest: string)
    requires NoNewline(l.caption) && l.cells == []
    ensures ReadLine(LineText(l) + rest) == (l, rest)
  {
    var tail := l.caption + "\n" + rest;
    var connector := if l.last then LAST else BRANCH;
    var s := connector + " " + tail;
    assert LineText(l) + rest == s;
    assert s[5..] == tail && s[0] == connector[0];
    ReadsToNewline(l.caption, rest);
  }

  lemma {:induction false} ReadsLines(ls: seq<Line>)
    requires forall i | 0 <= i < |ls| :: NoNewline(ls[i].caption)
    ensures ReadLines(LinesText(ls)) == ls
  {
    if ls != [] {
      ReadsLine(ls[0], LinesText(ls[1..]));
      ReadsLines(ls[1..]);
    }
  }

  ghost predicate LabelsOk(ls: seq<Line>) { forall i | 0 <= i < |ls| :: NoNewline(ls[i].caption) }

  lemma {:induction false} LinesHaveNoNewline(n: Node, cells: seq<bool>, isLast: bool, levels: nat)
    requires NamesOk(n)
    ensures LabelsOk(Lines(n, cells, isLast, levels))
    decreases n, 1
  {
    LabelHasNoNewline(n);
    if levels > 0 { LinesAllHaveNoNewline(n.children, cells + [isLast], levels - 1); }
  }

  lemma {:induction false} LinesAllHaveNoNewline(ns: seq<Node>, cells: seq<bool>, levels: nat)
    requires forall c | c in ns :: NamesOk(c)
    ensures LabelsOk(LinesAll(ns, cells, levels))
    decreases ns, 1
  {
    if ns != [] {
      assert ns[0] in ns;
      LinesHaveNoNewline(ns[0], cells, |ns| == 1, levels);
      LinesAllHaveNoNewline(ns[1..], cells, levels);
    }
  }

  /** No line of `rest` belongs below depth d. */
  predicate Outside(rest: seq<Line>, d: nat) { rest == [] || |rest[0].cells| <= d }

  lemma {:induction false} ForestOfNode(n: Node, cells: seq<bool>, isLast: bool, levels: nat, rest: seq<Line>)
    requires levels > 0 && Outside(rest, |cells|)
    ensures var (more, end) := Forest(rest, |cells|);
            Forest(Lines(n, cells, isLast, levels) + rest, |cells|) == ([ShapeOf(n, levels)] + more, end)
    decreases n, 1
  {
    var below := if n.kind == Directory then LinesAll(n.children, cells + [isLast], levels - 1) else [];
    if n.kind == Directory && levels > 1 {
      ForestOfChildren(n.children, cells + [isLast], levels - 1, rest);
    } else {
      if n.kind == Directory { NoLevelsNoLines(n.children, cells + [isLast]); }
      assert below + rest == rest;
    }
    ForestStep(Line(cells, isLast, Label(n)), below, rest);
  }

  /** One root in front of its own forest. */
  lemma ForestStep(l: Line, below: seq<Line>, rest: seq<Line>)
    requires Forest(below + rest, |l.cells| + 1).1 == rest
    ensures var (shapes, _) := Forest(below + rest, |l.cells| + 1);
            var (more, end) := Forest(rest, |l.cells|);
            Forest([l] + below + rest, |l.cells|) == ([Shape(l.caption, shapes)] + more, end)
  {
    var ls := [l] + below + rest;
    assert ls[1..] == below + rest;
  }

  lemma {:induction false} NoLevelsNoLines(ns: seq<Node>, cells: seq<bool>)
    ensures LinesAll(ns, cells, 0) == []
  {
    if ns != [] { NoLevelsNoLines(ns[1..], cells); }
  }

  lemma {:induction false} ForestOfChildren(ns: seq<Node>, cells: seq<bool>, levels: nat, rest: seq<Line>)
    requires levels > 0 && cells != [] && Outside(rest, |cells| - 1)
    ensures Forest(LinesAll(ns, cells, levels) + rest, |cells|) == (ShapesOf(ns, levels), rest)
    decreases ns, 1
  {
    if ns == [] {
      assert LinesAll(ns, cells, levels) + rest == rest;
    } else {
      var more := LinesAll(ns[1..], cells, levels) + rest;
      assert LinesAll(ns, cells, levels) + rest == Lines(ns[0], cells, |ns| == 1, levels) + more;
      ForestOfChildren(ns[1..], cells, levels, rest);
      ForestOfNode(ns[0], cells, |ns| == 1, levels, more);
    }
  }

  // ------------------------------------------------------------ main theorems

  /** The printed tree is faithful: when no name contains a newline, everything shown
      of any tree can be read back from the text, for every depth limit. */
  lemma AsciiTreeIsFaithful(n: Node, maxDepth: nat)
    requires NamesOk(n)
    ensures Recover(Render(n, "", true, maxDepth + 1)) == [ShapeOf(n, maxDepth + 1)]
  {
    var ls := Lines(n, [], true, maxDepth + 1);
    RenderIsLines(n, [], true, maxDepth + 1);
    LinesHaveNoNewline(n, [], true, maxDepth + 1);
    ReadsLines(ls);
    ForestOfNode(n, [], true, maxDepth + 1, []);
    assert ls + [] == ls;
  }

  // ------------------------------------------------ the addresses are all of them

  /** An address is shown when it leads through directories to a node within the limit. */
  ghost predicate Shown(n: Node, a: Address, levels: nat) {
    && HasNode(n, a) && |a| < levels
    && forall j | 0 <= j < |a| :: HasNode(n, a[..j]) && NodeAt(n, a[..j]).kind == Directory
  }

  lemma ShownStep(n: Node, a: Address, levels: nat)
    requires a != []
    ensures Shown(n, a, levels) <==>
            levels > 0 && n.kind == Directory && a[0] < |n.children| && Shown(n.children[a[0]], a[1..], levels - 1)
  {
    assert forall j | 0 < j <= |a| :: a[..j][0] == a[0] && a[..j][1..] == a[1..][..j - 1];
    if Shown(n, a, levels) {
      assert NodeAt(n, a[..0]) == n;
      forall j | 0 <= j < |a| - 1
        ensures var b := a[1..][..j]; HasNode(n.children[a[0]], b) && NodeAt(n.children[a[0]], b).kind == Directory
      {
        assert a[..j + 1][1..] == a[1..][..j] && NodeAt(n, a[..j + 1]).kind == Directory;
      }
    }
    if n.kind == Directory && a[0] < |n.children| && levels > 0 && Shown(n.children[a[0]], a[1..], levels - 1) {
      forall j | 0 <= j < |a|
        ensures HasNode(n, a[..j]) && NodeAt(n, a[..j]).kind == Directory
      {
        if j > 0 { assert a[..j][1..] == a[1..][..j - 1]; }
      }
    }
  }

  lemma {:induction false} AddressesAreShown(n: Node, levels: nat, a: Address)
    ensures a in Addresses(n, levels) <==> Shown(n, a, levels)
    decreases n, 1
  {
    if levels > 0 {
      if a == [] {
        assert Addresses(n, levels)[0] == [];
      } else {
        ShownStep(n, a, levels);
        if n.kind == Directory { AddressesFromAre(n.children, 0, levels - 1, a); }
      }
    }
  }

  lemma {:induction false} AddressesFromAre(ns: seq<Node>, first: nat, levels: nat, a: Address)
    ensures a in AddressesFrom(ns, first, levels) <==>
            a != [] && first <= a[0] < first + |ns| && Shown(ns[a[0] - first], a[1..], levels)
    decreases ns, 0
  {
    if ns != [] {
      var ads := Addresses(ns[0], levels);
      PrefixedIn(first, ads, a);
      AddressesFromAre(ns[1..], first + 1, levels, a);
      assert a in AddressesFrom(ns, first, levels) <==>
             a in Prefixed(first, ads) || a in AddressesFrom(ns[1..], first + 1, levels);
      if a != [] && a[0] == first {
        AddressesAreShown(ns[0], levels, a[1..]);
      } else if a != [] && first < a[0] < first + |ns| {
        assert ns[1..][a[0] - first - 1] == ns[a[0] - first];
      }
    }
  }

  lemma PrefixedIn(i: nat, s: seq<Address>, a: Address)
    ensures a in Prefixed(i, s) <==> a != [] && a[0] == i && a[1..] in s
  {
    if a != [] && a[0] == i && a[1..] in s {
      var k :| 0 <= k < |s| && s[k] == a[1..];
      assert Prefixed(i, s)[k] == [i] + a[1..] == a;
    }
  }

  /** Preorder: an ancestor first, and then by the child in which the addresses part. */
  predicate ComesBefore(a: Address, b: Address)
    decreases |a|
  {
    b != [] && (a == [] || a[0] < b[0] || (a[0] == b[0] && ComesBefore(a[1..], b[1..])))
  }

  ghost predicate InPreorder(s: seq<Address>) { forall i, j | 0 <= i < j < |s| :: ComesBefore(s[i], s[j]) }

  lemma {:induction false} NotBeforeItself(a: Address)
    ensures !ComesBefore(a, a)
    decreases |a|
  {
    if a != [] { NotBeforeItself(a[1..]); }
  }

  lemma {:induction false} AddressesInPreorder(n: Node, levels: nat)
    ensures InPreorder(Addresses(n, levels))
    decreases n, 1
  {
    if levels > 0 && n.kind == Directory { AddressesFromInPreorder(n.children, 0, levels - 1); }
  }

  lemma {:induction false} AddressesFromInPreorder(ns: seq<Node>, first: nat, levels: nat)
    ensures InPreorder(AddressesFrom(ns, first, levels))
    ensures forall a | a in AddressesFrom(ns, first, levels) :: a != [] && first <= a[0]
    decreases ns, 0
  {
    if ns != [] {
      AddressesInPreorder(ns[0], levels);
      AddressesFromInPreorder(ns[1..], first + 1, levels);
      PreorderConcat(first, Addresses(ns[0], levels), AddressesFrom(ns[1..], first + 1, levels));
    }
  }

  lemma PreorderConcat(first: nat, s: seq<Address>, t: seq<Address>)
    requires InPreorder(s) && InPreorder(t) && forall a | a in t :: a != [] && first < a[0]
    ensures InPreorder(Prefixed(first, s) + t)
    ensures forall a | a in Prefixed(first, s) + t :: a != [] && first <= a[0]
  {
    var p := Prefixed(first, s);
    assert forall i | 0 <= i < |p| :: p[i][0] == first && p[i][1..] == s[i];
    assert forall j | 0 <= j < |t| :: t[j] in t;
  }

  /** The addresses are exactly those of the nodes shown, each once, in preorder. */
  lemma AddressesEnumerate(n: Node, levels: nat)
    ensures forall a :: a in Addresses(n, levels) <==> Shown(n, a, levels)
    ensures var ads := Addresses(n, levels); InPreorder(ads) && forall i, j | 0 <= i < j < |ads| :: ads[i] != ads[j]
  {
    forall a
      ensures a in Addresses(n, levels) <==> Shown(n, a, levels)
    {
      AddressesAreShown(n, levels, a);
    }
    AddressesInPreorder(n, levels);
    var ads := Addresses(n, levels);
    forall i, j | 0 <= i < j < |ads|
      ensures ads[i] != ads[j]
    {
      NotBeforeItself(ads[i]);
    }
  }

  /** Line i shows the node at address i: its label, and exactly one cell per ancestor,
      blank precisely where that ancestor is a last child. */
  ghost predicate LinesShow(n: Node, ls: seq<Line>, ads: seq<Address>) {
    && |ls| == |ads|
    && forall i | 0 <= i < |ads| ::
         && HasNode(n, ads[i]) && ls[i].caption == Label(NodeAt(n, ads[i]))
         && |ls[i].cells| == |ads[i]|
         && ls[i].cells + [ls[i].last] == Flags(n, true, ads[i])
  }

  /** One line per node within the depth limit and below directories only, each once and
      all in preorder, with the node's label and one cell per ancestor. */
  lemma AsciiTreeLines(n: Node, maxDepth: nat)
    ensures var ls, ads := Lines(n, [], true, maxDepth + 1), Addresses(n, maxDepth + 1);
            && Render(n, "", true, maxDepth + 1) == LinesText(ls)
            && LinesShow(n, ls, ads)
            && (forall a :: a in ads <==> Shown(n, a, maxDepth + 1))
            && InPreorder(ads) && (forall i, j | 0 <= i < j < |ads| :: ads[i] != ads[j])
  {
    RenderIsLines(n, [], true, maxDepth + 1);
    AddressesEnumerate(n, maxDepth + 1);
    LinesShowAll(n, maxDepth + 1);
  }

  lemma LinesShowAll(n: Node, levels: nat)
    ensures LinesShow(n, Lines(n, [], true, levels), Addresses(n, levels))
  {
    var ls, ads := Lines(n, [], true, levels), Addresses(n, levels);
    LinesShowNodes(n, [], true, levels);
    forall i | 0 <= i < |ads|
      ensures |ls[i].cells| == |ads[i]| && ls[i].cells + [ls[i].last] == Flags(n, true, ads[i])
    {
      assert LineShows(ls[i], [], n, true, ads[i]);
      FlagsMeanLastChild(n, true, ads[i], 0);
      assert [] + Flags(n, true, ads[i]) == Flags(n, true, ads[i]);
    }
  }
}
