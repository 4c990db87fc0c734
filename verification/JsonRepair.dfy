/** `repair_truncated_json` (src/auto_scanner.rs): the pushdown scanner, the suffix
    it computes, and what that suffix does to the nesting of any input at all. */
module JsonRepair {
  import opened Wrappers
  import opened RustStrings
  import opened JsonGrammar

  function LastSignificant(s: string): char {
    var t := TrimEnd(s);
    if t == "" then ' ' else t[|t| - 1]
  }

  // ----------------------------------------------------------------- scanner

  datatype Scanner = Scanner(stack: seq<char>, inString: bool, escapeNext: bool)

  const IDLE := Scanner([], false, false)

  function Step(q: Scanner, ch: char): Scanner {
    if q.escapeNext then q.(escapeNext := false)
    else if q.inString then
      if ch == '\\' then q.(escapeNext := true)
      else if ch == '"' then q.(inString := false)
      else q
    else if ch == '"' then q.(inString := true)
    else if ch == '{' then q.(stack := q.stack + ['}'])
    else if ch == '[' then q.(stack := q.stack + [']'])
    else if (ch == '}' || ch == ']') && q.stack != [] && q.stack[|q.stack| - 1] == ch then
      q.(stack := q.stack[..|q.stack| - 1])
    else q
  }

  function Scan(q: Scanner, s: string): Scanner
    decreases |s|
  {
    if s == "" then q else Scan(Step(q, s[0]), s[1..])
  }

  function Reversed(s: string): string {
    if s == "" then "" else [s[|s| - 1]] + Reversed(s[..|s| - 1])
  }

  /** Only a text whose first significant character opens a container is repaired. */
  predicate OpensContainer(s: string) {
    var t := TrimStart(s);
    t != "" && (t[0] == '{' || t[0] == '[')
  }

  /** What is appended: the quote of an open string, a placeholder for a missing
      value, and the closers of everything still open, innermost first. */
  function Suffix(s: string): string {
    var q := Scan(IDLE, s);
    var quote := if q.inString then ['"'] else "";
    var last := LastSignificant(s + quote);
    quote + (if last == ':' || last == ',' then "null" else "") + Reversed(q.stack)
  }

  function Repair(s: string): Option<string> {
    var q := Scan(IDLE, s);
    if !OpensContainer(s) || (q.stack == [] && !q.inString) then None else Some(s + Suffix(s))
  }

  /** The source's function: check the first character, scan, and append. */
  method RepairTruncatedJson(jsonStr: string) returns (r: Option<string>)
    ensures r == Repair(jsonStr)
  {
    var start := TrimStart(jsonStr);
    if start == "" || (start[0] != '{' && start[0] != '[') {
      return None;
    }
    var stack, inString := ScanDelimiters(jsonStr);
    if stack == [] && !inString {
      return None;
    }
    var repaired := jsonStr;
    if inString {
      repaired := repaired + ['"'];
    }
    ghost var quote := if inString then ['"'] else "";
    assert repaired == jsonStr + quote;
    var last := LastSignificant(repaired);
    if last == ':' || last == ',' {
      repaired := repaired + "null";
    }
    ghost var placeholder := if last == ':' || last == ',' then "null" else "";
    assert repaired == jsonStr + quote + placeholder;
    repaired := CloseDelimiters(repaired, stack);
    Assoc4(jsonStr, quote, placeholder, Reversed(stack));
    return Some(repaired);
  }

  /** The scanning loop. */
  method ScanDelimiters(jsonStr: string) returns (stack: seq<char>, inString: bool)
    ensures stack == Scan(IDLE, jsonStr).stack && inString == Scan(IDLE, jsonStr).inString
  {
    stack, inString := [], false;
    var escapeNext := false;
    for i := 0 to |jsonStr|
      invariant Scan(Scanner(stack, inString, escapeNext), jsonStr[i..]) == Scan(IDLE, jsonStr)
    {
      var ch := jsonStr[i];
      assert jsonStr[i..][1..] == jsonStr[i + 1..];
      if escapeNext {
        escapeNext := false;
        continue;
      }
      if inString {
        match ch {
          case '\\' => escapeNext := true;
          case '"' => inString := false;
          case _ =>
        }
        continue;
      }
      match ch {
        case '"' => inString := true;
        case '{' => stack := stack + ['}'];
        case '[' => stack := stack + [']'];
        case _ =>
          if (ch == '}' || ch == ']') && |stack| > 0 {
            var expected := stack[|stack| - 1];
            if expected == ch {
              stack := stack[..|stack| - 1];
            }
          }
      }
    }
  }

  /** The closing loop: the stack from its top down. */
  method CloseDelimiters(text: string, stack: seq<char>) returns (repaired: string)
    ensures repaired == text + Reversed(stack)
  {
    repaired := text;
    var n := |stack|;
    assert stack[..n] == stack;
    while n > 0
      invariant 0 <= n <= |stack|
      invariant repaired + Reversed(stack[..n]) == text + Reversed(stack)
    {
      n := n - 1;
      assert stack[..n + 1][..n] == stack[..n];
      repaired := repaired + [stack[n]];
    }
    assert repaired + "" == repaired;
  }

  // -------------------------------------------------------- how scans compose

  lemma {:induction false} ScanConcat(q: Scanner, a: string, b: string)
    ensures Scan(q, a + b) == Scan(Scan(q, a), b)
    decreases |a|
  {
    if a == "" {
      assert a + b == b;
    } else {
      assert (a + b)[1..] == a[1..] + b;
      ScanConcat(Step(q, a[0]), a[1..], b);
    }
  }

  /** Scanner states that can arise: only closers are stacked, and only a string
      has escapes. */
  predicate ScannerOk(q: Scanner) {
    Closers(q.stack) && (q.escapeNext ==> q.inString)
  }

  lemma {:induction false} ScanKeepsOk(q: Scanner, s: string)
    requires ScannerOk(q)
    ensures ScannerOk(Scan(q, s))
    decreases |s|
  {
    if s != "" { ScanKeepsOk(Step(q, s[0]), s[1..]); }
  }

  predicate Closers(s: string) { forall i | 0 <= i < |s| :: s[i] == '}' || s[i] == ']' }

  /** Popping in reverse empties the stack. */
  lemma {:induction false} ClosersEmptyStack(stack: string)
    requires Closers(stack)
    ensures Closers(Reversed(stack)) && |Reversed(stack)| == |stack|
    ensures Scan(Scanner(stack, false, false), Reversed(stack)) == IDLE
  {
    if stack != "" {
      var rest := stack[..|stack| - 1];
      assert Reversed(stack)[1..] == Reversed(rest);
      ClosersEmptyStack(rest);
    }
  }

  /** Closers inside a string change nothing. */
  lemma {:induction false} ClosersInString(q: Scanner, s: string)
    requires Closers(s) && q.inString && !q.escapeNext
    ensures Scan(q, s) == q && NoMismatch(q, s)
  {
    if s != "" { ClosersInString(q, s[1..]); }
  }

  lemma {:induction false} TrimStartExtends(s: string, more: string)
    requires TrimStart(s) != ""
    ensures TrimStart(s + more) == TrimStart(s) + more
  {
    if IsRustSpace(s[0]) {
      assert (s + more)[1..] == s[1..] + more;
      TrimStartExtends(s[1..], more);
    }
  }

  // ------------------------------------------- repair balances every input

  /** Text that no scanner outside a string reacts to. */
  predicate Inert(t: string) {
    forall i | 0 <= i < |t| :: t[i] != '"' && !IsDelimiter(t[i])
  }

  lemma {:induction false} InertScan(q: Scanner, t: string)
    requires Inert(t) && !q.inString && !q.escapeNext
    ensures Scan(q, t) == q && NoMismatch(q, t)
  {
    if t != "" { InertScan(q, t[1..]); }
  }

  /** The last character that is no white space is at i. */
  predicate Ends(s: string, i: nat) {
    i < |s| && !IsRustSpace(s[i]) && forall j | i < j < |s| :: IsRustSpace(s[j])
  }

  /** Trimming the end leaves the text up to that character. */
  lemma {:induction false} TrimmedEnd(s: string)
    ensures var n := |TrimEnd(s)|;
            n <= |s| && TrimEnd(s) == s[..n]
            && if n == 0 then forall j | 0 <= j < |s| :: IsRustSpace(s[j]) else Ends(s, n - 1)
    decreases |s|
  {
    if s != "" && IsRustSpace(s[|s| - 1]) {
      var front := s[..|s| - 1];
      TrimmedEnd(front);
      assert front[..|TrimEnd(front)|] == s[..|TrimEnd(front)|];
    } else {
      assert s[..|s|] == s;
    }
  }

  lemma LastAt(s: string, c: char)
    requires c != ' '
    ensures LastSignificant(s) == c <==> exists i: nat :: Ends(s, i) && s[i] == c
  {
    TrimmedEnd(s);
    var n := |TrimEnd(s)|;
    assert n > 0 ==> Ends(s, n - 1) && TrimEnd(s)[n - 1] == s[n - 1];
  }

  lemma NoQuote(t: string)
    ensures "" + "null" + t == "null" + t && "" + "" + t == "" + t
  {}

  /** Outside a string a placeholder is missing exactly where the text, white space
      aside, ends in a colon or a comma. */
  lemma PlaceholderIff(s: string)
    requires !Scan(IDLE, s).inString
    ensures var missing := exists i: nat :: Ends(s, i) && (s[i] == ':' || s[i] == ',');
            Suffix(s) == (if missing then "null" else "") + Reversed(Scan(IDLE, s).stack)
  {
    assert s + "" == s;
    LastAt(s, ':');
    LastAt(s, ',');
    NoQuote(Reversed(Scan(IDLE, s).stack));
  }

  /** Never both the quote and the placeholder. */
  lemma SuffixShape(s: string) returns (fill: string)
    ensures var q := Scan(IDLE, s);
            && Suffix(s) == fill + Reversed(q.stack)
            && if q.inString then fill == ['"'] else Inert(fill) && |fill| <= 4
  {
    var q := Scan(IDLE, s);
    if q.inString {
      QuoteIsSignificant(s);
      fill := ['"'];
    } else {
      assert s + "" == s;
      fill := if LastSignificant(s) == ':' || LastSignificant(s) == ',' then "null" else "";
    }
  }

  /** The scan of a repaired text: idle, unless the input stopped right after a
      backslash inside a string. */
  lemma ScanOfRepaired(s: string)
    ensures var q := Scan(IDLE, s);
            && Scan(IDLE, s + Suffix(s)) == (if q.escapeNext then Scanner(q.stack, true, false) else IDLE)
            && NoMismatch(q, Suffix(s))
  {
    var q := Scan(IDLE, s);
    ScanKeepsOk(IDLE, s);
    ScanConcat(IDLE, s, Suffix(s));
    ClosersEmptyStack(q.stack);
    var fill := SuffixShape(s);
    var closers := Reversed(q.stack);
    ScanConcat(q, fill, closers);
    NoMismatchConcat(q, fill, closers);
    if q.inString {
      var q2 := Step(q, '"');
      assert fill[1..] == "" && Scan(q2, "") == q2 && Scan(q, fill) == q2;
      if q.escapeNext { ClosersInString(q2, closers); } else { ClosersMatch(q.stack); }
    } else {
      InertScan(q, fill);
      ClosersMatch(q.stack);
    }
  }

  lemma QuoteIsSignificant(s: string)
    ensures LastSignificant(s + ['"']) == '"'
  {
    assert (s + ['"'])[|s|] == '"';
  }

  /** For every input: a repaired text extends the input by at most one closer per
      open delimiter plus either a quote or `null`, never both.  It scans to an empty
      stack outside any string, so that a second repair finds nothing to do, if and
      only if the input does not stop right after a backslash inside a string. */
  lemma RepairBalances(s: string)
    requires Repair(s).Some?
    ensures var q, r := Scan(IDLE, s), Repair(s).value;
            && s <= r
            && |r| <= |s| + |q.stack| + (if q.inString then 1 else 4)
            && (Scan(IDLE, r) == IDLE <==> !q.escapeNext)
            && (Repair(r) == None <==> !q.escapeNext)
  {
    var q, r := Scan(IDLE, s), Repair(s).value;
    ScanKeepsOk(IDLE, s);
    ClosersEmptyStack(q.stack);
    var fill := SuffixShape(s);
    ScanOfRepaired(s);
    TrimStartExtends(s, Suffix(s));
    assert OpensContainer(r);
  }

  /** The first character that is no white space is at i. */
  predicate Begins(s: string, i: nat) {
    i < |s| && !IsRustSpace(s[i]) && forall j | 0 <= j < i :: IsRustSpace(s[j])
  }

  lemma {:induction false} OpensAt(s: string)
    ensures OpensContainer(s) <==> exists i: nat :: Begins(s, i) && (s[i] == '{' || s[i] == '[')
  {
    if s != "" && IsRustSpace(s[0]) {
      OpensAt(s[1..]);
      assert forall i: nat :: i < |s| - 1 ==> s[1..][i] == s[i + 1];
      if i: nat :| Begins(s, i) && (s[i] == '{' || s[i] == '[') { assert Begins(s[1..], i - 1); }
      if i: nat :| Begins(s[1..], i) && (s[1..][i] == '{' || s[1..][i] == '[') { assert Begins(s, i + 1); }
    } else if s != "" {
      assert Begins(s, 0);
    }
  }

  /** When the repair declines: the text does not begin with an opening brace or bracket,
      or its scan is already balanced. */
  lemma RepairDeclines(s: string)
    ensures Repair(s) == None <==> !OpensContainer(s) || Scan(IDLE, s) == IDLE
    ensures OpensContainer(s) <==> exists i: nat :: Begins(s, i) && (s[i] == '{' || s[i] == '[')
  {
    ScanKeepsOk(IDLE, s);
    OpensAt(s);
  }

  // --------------------------------------- a recursive grammar of nesting

  /** Properly nested delimiters, as a grammar: nothing, or a nest followed by one
      delimited group. */
  datatype Nest = Flat | Group(before: Nest, kind: Kind, inside: Nest)

  function NestText(n: Nest): string {
    match n
    case Flat => ""
    case Group(b, k, i) => NestText(b) + [Opener(k)] + NestText(i) + [Closer(k)]
  }

  predicate IsDelimiter(c: char) { c == '{' || c == '[' || c == '}' || c == ']' }

  /** The delimiters outside strings. */
  function Skeleton(q: Scanner, s: string): string
    decreases |s|
  {
    if s == "" then ""
    else
      (if !q.escapeNext && !q.inString && IsDelimiter(s[0]) then [s[0]] else "")
      + Skeleton(Step(q, s[0]), s[1..])
  }

  /** No closer outside a string is ignored by the scan. */
  predicate NoMismatch(q: Scanner, s: string)
    decreases |s|
  {
    s != "" ==>
      && ((!q.escapeNext && !q.inString && (s[0] == '}' || s[0] == ']'))
          ==> q.stack != [] && q.stack[|q.stack| - 1] == s[0])
      && NoMismatch(Step(q, s[0]), s[1..])
  }

  ghost predicate WellBracketed(s: string) { exists n :: NestText(n) == Skeleton(IDLE, s) }

  /** A nest with some groups still open. */
  datatype Open = Top(n: Nest) | Under(outer: Open, kind: Kind, n: Nest)

  function OpenText(o: Open): string {
    match o
    case Top(n) => NestText(n)
    case Under(out, k, n) => OpenText(out) + [Opener(k)] + NestText(n)
  }

  function OpenStack(o: Open): string {
    match o
    case Top(_) => ""
    case Under(out, k, _) => OpenStack(out) + [Closer(k)]
  }

  function Close(o: Open): Open
    requires o.Under?
  {
    match o.outer
    case Top(n) => Top(Group(n, o.kind, o.n))
    case Under(out, k, n) => Under(out, k, Group(n, o.kind, o.n))
  }

  lemma CloseText(o: Open)
    requires o.Under?
    ensures OpenText(Close(o)) == OpenText(o) + [Closer(o.kind)]
    ensures OpenStack(Close(o)) == OpenStack(o.outer)
  {
    match o.outer
    case Top(n) =>
    case Under(out, k, n) =>
      Assoc5(OpenText(out) + [Opener(k)], NestText(n), [Opener(o.kind)], NestText(o.n), [Closer(o.kind)]);
  }

  /** One delimiter more. */
  lemma OpenDelimiter(o: Open, c: char) returns (next: Open)
    requires IsDelimiter(c)
    requires c == '}' || c == ']' ==> OpenStack(o) != "" && OpenStack(o)[|OpenStack(o)| - 1] == c
    ensures OpenText(next) == OpenText(o) + [c]
    ensures OpenStack(next) == Step(Scanner(OpenStack(o), false, false), c).stack
  {
    if c == '{' {
      next := Under(o, Object, Flat);
    } else if c == '[' {
      next := Under(o, Array, Flat);
    } else {
      next := Close(o);
      CloseText(o);
    }
  }

  lemma {:induction false} BuildNest(o: Open, q: Scanner, s: string) returns (o2: Open)
    requires q.stack == OpenStack(o) && NoMismatch(q, s)
    ensures OpenText(o2) == OpenText(o) + Skeleton(q, s)
    ensures OpenStack(o2) == Scan(q, s).stack
    decreases |s|
  {
    if s == "" {
      o2 := o;
    } else {
      var rest := Skeleton(Step(q, s[0]), s[1..]);
      if !q.escapeNext && !q.inString && IsDelimiter(s[0]) {
        var next := OpenDelimiter(o, s[0]);
        o2 := BuildNest(next, Step(q, s[0]), s[1..]);
        assert Skeleton(q, s) == [s[0]] + rest;
        Assoc3(OpenText(o), [s[0]], rest);
      } else {
        o2 := BuildNest(o, Step(q, s[0]), s[1..]);
        assert Skeleton(q, s) == rest;
      }
    }
  }

  lemma Assoc5(a: string, b: string, c: string, d: string, e: string)
    ensures a + b + c + d + e == a + (b + c + d + e)
  {}

  /** Running the scanner's stack over delimiters alone, refusing mismatches. */
  function Match(stack: string, k: string): Option<string>
    decreases |k|
  {
    if k == "" then Some(stack)
    else if k[0] == '{' then Match(stack + ['}'], k[1..])
    else if k[0] == '[' then Match(stack + [']'], k[1..])
    else if stack != "" && stack[|stack| - 1] == k[0] then Match(stack[..|stack| - 1], k[1..])
    else None
  }

  lemma {:induction false} MatchSkeleton(q: Scanner, s: string)
    ensures Match(q.stack, Skeleton(q, s)) == if NoMismatch(q, s) then Some(Scan(q, s).stack) else None
    decreases |s|
  {
    if s != "" {
      MatchSkeleton(Step(q, s[0]), s[1..]);
      var k := Skeleton(q, s);
      if !q.escapeNext && !q.inString && IsDelimiter(s[0]) {
        assert k[1..] == Skeleton(Step(q, s[0]), s[1..]);
      } else {
        assert k == Skeleton(Step(q, s[0]), s[1..]);
      }
    }
  }

  lemma {:induction false} MatchNest(stack: string, n: Nest, rest: string)
    ensures Match(stack, NestText(n) + rest) == Match(stack, rest)
    decreases n
  {
    match n
    case Flat => assert "" + rest == rest;
    case Group(b, k, i) =>
      var r2 := NestText(i) + ([Closer(k)] + rest);
      var r1 := [Opener(k)] + r2;
      assert NestText(n) + rest == NestText(b) + r1;
      MatchNest(stack, b, r1);
      assert r1[1..] == r2;
      var pushed := stack + [Closer(k)];
      MatchNest(pushed, i, [Closer(k)] + rest);
      assert ([Closer(k)] + rest)[1..] == rest;
      assert pushed[..|pushed| - 1] == stack;
  }

  /** The scan accepts exactly the grammar: the delimiters outside strings are
      properly nested if and only if no closer was mismatched and none is missing. */
  lemma ScanDecidesNesting(s: string)
    ensures WellBracketed(s) <==> NoMismatch(IDLE, s) && Scan(IDLE, s).stack == []
  {
    MatchSkeleton(IDLE, s);
    if n :| NestText(n) == Skeleton(IDLE, s) {
      MatchNest("", n, "");
      assert NestText(n) + "" == NestText(n);
    }
    if NoMismatch(IDLE, s) && Scan(IDLE, s).stack == [] {
      var o := BuildNest(Top(Flat), IDLE, s);
      assert o.Top?;
      assert NestText(o.n) == Skeleton(IDLE, s);
    }
  }

  lemma {:induction false} NoMismatchConcat(q: Scanner, a: string, b: string)
    ensures NoMismatch(q, a + b) <==> NoMismatch(q, a) && NoMismatch(Scan(q, a), b)
    decreases |a|
  {
    if a == "" {
      assert a + b == b;
    } else {
      assert (a + b)[1..] == a[1..] + b;
      NoMismatchConcat(Step(q, a[0]), a[1..], b);
    }
  }

  lemma {:induction false} ClosersMatch(stack: string)
    requires Closers(stack)
    ensures NoMismatch(Scanner(stack, false, false), Reversed(stack))
  {
    if stack != "" {
      var rest := stack[..|stack| - 1];
      assert Reversed(stack)[1..] == Reversed(rest);
      ClosersMatch(rest);
    }
  }

  /** A repaired text is properly nested exactly when the input had no mismatched
      closer and did not stop inside an escape of a nested string. */
  lemma RepairNests(s: string)
    requires Repair(s).Some?
    ensures var q := Scan(IDLE, s);
            WellBracketed(Repair(s).value) <==> NoMismatch(IDLE, s) && (q.escapeNext ==> q.stack == [])
  {
    ScanOfRepaired(s);
    ScanDecidesNesting(Repair(s).value);
    NoMismatchConcat(IDLE, s, Suffix(s));
  }
}
