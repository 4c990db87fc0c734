/** What a line of the printed tree says, character by character: the branch drawings, and
    how the name and the numbers of a node are read from its caption. */
module TreeCaptions {
  import opened Wrappers
  import opened DirectoryTree
  import opened AsciiTree

  // ---------------------------------------------------------------- the drawing

  /** A directory with a directory that holds one file, and then a file: the four kinds of
      drawing in one picture. */
  lemma Picture(n: Node, d: Node, c: Node, b: Node, levels: nat)
    requires n.kind == d.kind == Directory && c.kind == b.kind == File && levels >= 3
    requires n.children == [d, b] && d.children == [c]
    ensures Render(n, "", true, levels) ==
            "\U{2514}\U{2500}\U{2500}  " + Label(n) + "\n"
            + ("    \U{251C}\U{2500}\U{2500}  " + Label(d) + "\n"
               + ("    \U{2502}   \U{2514}\U{2500}\U{2500}  " + Label(c) + "\n")
               + ("    \U{2514}\U{2500}\U{2500}  " + Label(b) + "\n"))
  {
    Drawings();
    assert n.children[1..] == [b] && [b][1..] == [] && d.children[1..] == [];
    OneFile(c, BLANK + GUIDE, levels - 2);
    OneFile(b, BLANK, levels - 1);
    OneDirectory(d, BLANK, c, levels - 1);
    RenderPair(d, b, BLANK, levels - 1);
    assert "" + BLANK == BLANK;
  }

  lemma Drawings()
    ensures "" + LAST + " " == "\U{2514}\U{2500}\U{2500}  "
    ensures BLANK + BRANCH + " " == "    \U{251C}\U{2500}\U{2500}  "
    ensures BLANK + GUIDE + LAST + " " == "    \U{2502}   \U{2514}\U{2500}\U{2500}  "
    ensures BLANK + LAST + " " == "    \U{2514}\U{2500}\U{2500}  "
  {}

  lemma RenderLast(n: Node, prefix: string, levels: nat)
    ensures RenderAll([n], prefix, levels) == Render(n, prefix, true, levels)
  {
    var ns, text := [n], Render(n, prefix, true, levels);
    assert ns[1..] == [] && RenderAll([], prefix, levels) == "";
    assert RenderAll(ns, prefix, levels) == text + "" == text;
  }

  lemma RenderPair(a: Node, b: Node, prefix: string, levels: nat)
    ensures RenderAll([a, b], prefix, levels) == Render(a, prefix, false, levels) + Render(b, prefix, true, levels)
  {
    RenderLast(b, prefix, levels);
    var ns := [a, b];
    assert ns[0] == a && ns[1..] == [b] && |ns| == 2;
  }

  lemma OneDirectory(d: Node, prefix: string, c: Node, levels: nat)
    requires d.kind == Directory && d.children == [c] && levels > 0
    ensures Render(d, prefix, false, levels) ==
            prefix + BRANCH + " " + Label(d) + "\n" + Render(c, prefix + GUIDE, true, levels - 1)
  {
    RenderLast(c, prefix + GUIDE, levels - 1);
  }

  lemma OneFile(n: Node, prefix: string, levels: nat)
    requires n.kind == File && levels > 0
    ensures Render(n, prefix, true, levels) == prefix + LAST + " " + Label(n) + "\n"
  {}

  // -------------------------------------------------------------------- numbers

  /** The number that decimal digits stand for. */
  function Value(s: string): nat
    requires forall i | 0 <= i < |s| :: '0' <= s[i] <= '9'
  {
    if s == "" then 0 else 10 * Value(s[..|s| - 1]) + (s[|s| - 1] as int - '0' as int)
  }

  lemma {:induction false} DecimalReads(n: nat)
    ensures Value(Decimal(n)) == n && Decimal(n) != ""
  {
    var s := Decimal(n);
    if n < 10 {
      assert s[..0] == "";
    } else {
      DecimalReads(n / 10);
      assert s[..|s| - 1] == Decimal(n / 10);
    }
  }

  predicate IsDigit(c: char) { '0' <= c <= '9' }

  predicate Ends(s: string) { s == "" || !IsDigit(s[0]) }

  /** A number is read up to the first character that is no digit. */
  lemma NumberReads(n1: nat, r1: string, n2: nat, r2: string)
    requires Decimal(n1) + r1 == Decimal(n2) + r2 && Ends(r1) && Ends(r2)
    ensures n1 == n2 && r1 == r2
  {
    var d1, d2 := Decimal(n1), Decimal(n2);
    var s := d1 + r1;
    assert s[..|d1|] == d1 && s[|d1|..] == r1 && s[..|d2|] == d2 && s[|d2|..] == r2;
    NotShorter(d1, r1, d2, s);
    NotShorter(d2, r2, d1, s);
    DecimalReads(n1);
    DecimalReads(n2);
  }

  lemma NotShorter(d1: string, r1: string, d2: string, s: string)
    requires s == d1 + r1 && d2 <= s && Ends(r1) && forall i | 0 <= i < |d2| :: IsDigit(d2[i])
    ensures |d2| <= |d1|
  {
    if |d1| < |s| { assert s[|d1|] == r1[0]; }
  }

  // ------------------------------------------------------------------- captions

  const MARKS := {'[', '\U{1F534}', '\U{1F7E0}', '\U{1F3F7}'}

  /** Nothing, or a space and one of these marks. */
  predicate Leads(s: string, marks: set<char>) { s == "" || (|s| >= 2 && s[0] == ' ' && s[1] in marks) }

  /** A name in which nothing looks like an indicator. */
  predicate Plain(name: string) { forall i | 0 <= i < |name| - 1 :: name[i] == ' ' ==> name[i + 1] !in MARKS }

  lemma NameReads(name1: string, r1: string, name2: string, r2: string)
    requires name1 + r1 == name2 + r2 && Plain(name1) && Plain(name2) && Leads(r1, MARKS) && Leads(r2, MARKS)
    ensures name1 == name2 && r1 == r2
  {
    var s := name1 + r1;
    assert s[..|name1|] == name1 && s[|name1|..] == r1 && s[..|name2|] == name2 && s[|name2|..] == r2;
    NoShorterName(name1, r1, name2, r2, s);
    NoShorterName(name2, r2, name1, r1, s);
  }

  lemma NoShorterName(name1: string, r1: string, name2: string, r2: string, s: string)
    requires s == name1 + r1 == name2 + r2 && Plain(name2) && Leads(r1, MARKS) && Leads(r2, MARKS)
    ensures |name2| <= |name1|
  {
    var k := |name1|;
    assert forall i | 0 <= i < |name2| :: s[i] == name2[i];
    assert r1 != "" ==> s[k] == ' ' && s[k + 1] in MARKS;
    assert r2 != "" ==> s[|name2|] == ' ';
  }

  lemma BadgeReads(caption: string, close: string, n1: nat, r1: string, n2: nat, r2: string, marks: set<char>)
    requires |caption| >= 2 && caption[1] !in marks && Leads(r1, marks) && Leads(r2, marks)
    requires Ends(close) && Badge(caption, n1, close) + r1 == Badge(caption, n2, close) + r2
    ensures n1 == n2 && r1 == r2
  {
    var s := Badge(caption, n1, close) + r1;
    BadgeShows(caption, n1, close, r1);
    BadgeShows(caption, n2, close, r2);
    if n1 > 0 && n2 > 0 {
      EndsBehind(close, r1, marks);
      EndsBehind(close, r2, marks);
      NumberReads(n1, close + r1, n2, close + r2);
      assert r1 == (close + r1)[|close|..] && r2 == (close + r2)[|close|..];
    }
  }

  lemma BadgeShows(caption: string, n: nat, close: string, r: string)
    requires |caption| >= 2
    ensures var s := Badge(caption, n, close) + r;
            if n == 0 then s == r
            else |s| >= 2 && s[1] == caption[1] && s[|caption|..] == Decimal(n) + (close + r)
  {
    var s := Badge(caption, n, close) + r;
    if n > 0 { assert s == caption + (Decimal(n) + (close + r)); }
  }

  lemma EndsBehind(close: string, r: string, marks: set<char>)
    requires Ends(close) && Leads(r, marks)
    ensures Ends(close + r)
  {
    if close == "" { assert close + r == r; } else { assert (close + r)[0] == close[0]; }
  }

  lemma BadgeLeads(caption: string, n: nat, close: string, r: string, marks: set<char>)
    requires |caption| >= 2 && caption[0] == ' ' && Leads(r, marks)
    ensures Leads(Badge(caption, n, close) + r, marks + {caption[1]})
  {
    if n == 0 { assert Badge(caption, n, close) + r == r; }
  }

  const LINES_MARK := " ["
  const CRITICAL_MARK := " \U{1F534}"
  const HIGH_MARK := " \U{1F7E0}"
  const TAGS_MARK := " \U{1F3F7}\U{FE0F}"

  function Icon(kind: NodeType): string { if kind == Directory then "\U{1F4C1}" else "\U{1F4C4}" }

  function HighOn(c: Counts): string { Badge(HIGH_MARK, c.high, "") + Badge(TAGS_MARK, c.tags, "") }

  function Severe(c: Counts): string { Badge(CRITICAL_MARK, c.critical, "") + HighOn(c) }

  function Indicators(c: Counts): string { Badge(LINES_MARK, c.lines, " LOC]") + Severe(c) }

  lemma LabelIs(n: Node)
    ensures Label(n) == Icon(n.kind) + (n.name + Indicators(n.counts))
  {
    var p := Parts(n);
    JoinedSix(p);
    JoinRight(p[0], p[1], p[2], p[3], p[4], p[5]);
  }

  lemma JoinedSix(p: seq<string>)
    requires |p| == 6
    ensures Joined(p) == p[0] + p[1] + p[2] + p[3] + p[4] + p[5]
  {
    assert p[..5][..4] == p[..4] && p[..4][..3] == p[..3] && p[..3][..2] == p[..2] && p[..2][..1] == p[..1];
    assert p[..1][..0] == [] && Joined([]) + p[0] == p[0];
    assert Joined(p[..1]) == p[0];
    assert Joined(p[..2]) == p[0] + p[1];
    assert Joined(p[..3]) == p[0] + p[1] + p[2];
    assert Joined(p[..4]) == p[0] + p[1] + p[2] + p[3];
  }

  lemma JoinRight(a: string, b: string, c: string, d: string, e: string, f: string)
    ensures a + b + c + d + e + f == a + (b + (c + (d + (e + f))))
  {}

  lemma IndicatorsLead(c: Counts)
    ensures Leads(HighOn(c), {'\U{1F7E0}', '\U{1F3F7}'})
    ensures Leads(Severe(c), {'\U{1F534}', '\U{1F7E0}', '\U{1F3F7}'})
    ensures Leads(Indicators(c), MARKS)
  {
    var tags := Badge(TAGS_MARK, c.tags, "");
    assert tags + "" == tags;
    BadgeLeads(TAGS_MARK, c.tags, "", "", {});
    BadgeLeads(HIGH_MARK, c.high, "", tags, {'\U{1F3F7}'});
    BadgeLeads(CRITICAL_MARK, c.critical, "", HighOn(c), {'\U{1F7E0}', '\U{1F3F7}'});
    BadgeLeads(LINES_MARK, c.lines, " LOC]", Severe(c), {'\U{1F534}', '\U{1F7E0}', '\U{1F3F7}'});
    assert {'\U{1F534}', '\U{1F7E0}', '\U{1F3F7}'} + {'['} == MARKS;
  }

  /** A caption tells everything that is printed: two nodes whose names contain nothing
      like an indicator have the same caption only if they agree on their kind, their
      name and the four printed numbers. */
  lemma CaptionTells(n: Node, m: Node)
    requires Label(n) == Label(m) && Plain(n.name) && Plain(m.name)
    ensures n.kind == m.kind && n.name == m.name
    ensures n.counts.lines == m.counts.lines && n.counts.critical == m.counts.critical
    ensures n.counts.high == m.counts.high && n.counts.tags == m.counts.tags
  {
    LabelIs(n);
    LabelIs(m);
    assert Label(n)[0] == Icon(n.kind)[0] && Label(m)[0] == Icon(m.kind)[0];
    assert Label(n)[1..] == n.name + Indicators(n.counts) && Label(m)[1..] == m.name + Indicators(m.counts);
    IndicatorsLead(n.counts);
    IndicatorsLead(m.counts);
    NameReads(n.name, Indicators(n.counts), m.name, Indicators(m.counts));
    IndicatorsRead(n.counts, m.counts);
  }

  lemma IndicatorsRead(c: Counts, d: Counts)
    requires Indicators(c) == Indicators(d)
    ensures c.lines == d.lines && c.critical == d.critical && c.high == d.high && c.tags == d.tags
  {
    IndicatorsLead(c);
    IndicatorsLead(d);
    BadgeReads(LINES_MARK, " LOC]", c.lines, Severe(c), d.lines, Severe(d), {'\U{1F534}', '\U{1F7E0}', '\U{1F3F7}'});
    BadgeReads(CRITICAL_MARK, "", c.critical, HighOn(c), d.critical, HighOn(d), {'\U{1F7E0}', '\U{1F3F7}'});
    var t, u := Badge(TAGS_MARK, c.tags, ""), Badge(TAGS_MARK, d.tags, "");
    assert t + "" == t && u + "" == u;
    BadgeLeads(TAGS_MARK, c.tags, "", "", {});
    BadgeLeads(TAGS_MARK, d.tags, "", "", {});
    BadgeReads(HIGH_MARK, "", c.high, t, d.high, u, {'\U{1F3F7}'});
    BadgeReads(TAGS_MARK, "", c.tags, "", d.tags, "", {});
  }

  /** A name can look like an indicator, and then the caption does not tell. */
  lemma CaptionAmbiguous(n: Node, m: Node)
    requires n.kind == m.kind == File && n.name == "a" && m.name == "a [5 LOC]"
    requires n.counts == NONE.(lines := 5) && m.counts == NONE
    ensures Label(n) == Label(m)
  {
    LabelIs(n);
    LabelIs(m);
    assert Decimal(5) == "5";
    assert Indicators(m.counts) == "" && Severe(n.counts) == "";
    assert Indicators(n.counts) == " [5 LOC]";
  }
}
