/** Answers that break off: what the extractors make of a fence that is never closed and
    of an object that is never finished, and what the repair then makes of it. */
module TruncatedAnswers {
  import opened Wrappers
  import opened RustStrings
  import opened JsonGrammar
  import opened JsonExtraction
  import JsonRepair
  import JsonCut
  import JsonMeaning

  // ----------------------------------------------------------- trimming an end

  /** A text that does not begin with white space, split before the white space at its end. */
  lemma TrimEndSplits(t: string) returns (tail: string)
    requires t != "" && !IsRustSpace(t[0])
    ensures t == TrimEnd(t) + tail && AllSpace(tail)
    ensures var e := TrimEnd(t);
            e != "" && e[0] == t[0] && !IsRustSpace(e[|e| - 1]) && TrimEnd(e) == e && TrimStart(e) == e
  {
    var k := TrimEndIsPart(t);
    tail := t[k..];
    TrimmedTail(t);
    assert t == t[..k] + tail;
  }

  lemma {:induction false} TrimmedTail(t: string)
    requires t != "" && !IsRustSpace(t[0])
    ensures var n := |TrimEnd(t)|; 0 < n <= |t| && TrimEnd(t) == t[..n] && !IsRustSpace(t[n - 1]) && AllSpace(t[n..])
    decreases |t|
  {
    if IsRustSpace(t[|t| - 1]) {
      var front := t[..|t| - 1];
      TrimmedTail(front);
      var n := |TrimEnd(front)|;
      assert front[..n] == t[..n];
      AllSpaceSnoc(t, n);
    } else {
      assert t[..|t|] == t && t[|t|..] == "";
    }
  }

  lemma AllSpaceSnoc(t: string, n: nat)
    requires n < |t| && AllSpace(t[..|t| - 1][n..]) && IsRustSpace(t[|t| - 1])
    ensures AllSpace(t[n..])
  {
    assert t[n..] == t[..|t| - 1][n..] + [t[|t| - 1]];
  }

  ghost predicate Solid(t: string) { t != "" && !IsRustSpace(t[0]) && !IsRustSpace(t[|t| - 1]) }

  lemma TrimBefore(a: string, mid: string, tail: string)
    requires Solid(mid) && AllSpace(tail)
    ensures Trim(a + mid + tail) == TrimStart(a) + mid
  {
    TrimAround(a, mid, tail);
    TrimSpace(tail);
    assert TrimStart(a) + mid + "" == TrimStart(a) + mid;
  }

  lemma TrimBehindSpace(w: string, e: string)
    requires AllSpace(w) && Solid(e)
    ensures Trim(w + e) == e
  {
    TrimAround(w, e, "");
    TrimSpace(w);
    assert w + e + "" == w + e && "" + e + "" == e;
  }

  ghost predicate Fenceless(t: string) { NoFence(t) && (t == "" || t[|t| - 1] != '`') }

  lemma FencelessParts(pre: string, t: string, n: nat)
    requires n <= |t|
    ensures NoFence(pre) ==> NoFence(TrimStart(pre))
    ensures Fenceless(pre) ==> Fenceless(TrimStart(pre))
    ensures Lacks(pre, '{') ==> Lacks(TrimStart(pre), '{')
    ensures NoFence(t) ==> NoFence(t[..n])
  {
    var k := TrimStartIsPart(pre);
    assert forall i: nat :: FenceAt(TrimStart(pre), i) ==> FenceAt(pre, k + i);
    assert forall i: nat :: FenceAt(t[..n], i) ==> FenceAt(t, i);
  }

  // ------------------------------------------------------------ inside a fence

  predicate Openers(c: char) { c == '{' || c == '[' }

  predicate LacksOpeners(s: string) { forall i | 0 <= i < |s| :: !Openers(s[i]) }

  lemma FindsFirstOpener(y: string, t: string)
    requires LacksOpeners(y) && t != "" && Openers(t[0])
    ensures FindChar(y + t, {'{', '['}) == Some(|y|) && (y + t)[|y|..] == t
  {
    assert t == [t[0]] + t[1..];
    FindCharAt(y, t[0], t[1..], {'{', '['});
    Assoc3(y, [t[0]], t[1..]);
  }

  lemma UpToNoFence(e: string)
    requires NoFence(e) && Solid(e)
    ensures UpToFence(e) == e
  {
    NoFenceFound(e);
    TrimBehindSpace("", e);
    assert "" + e == e;
  }

  lemma UpToAFence(t: string, b: string)
    requires Fenceless(t) && t != "" && !IsRustSpace(t[0])
    ensures UpToFence(t + FENCE + b) == TrimEnd(t)
  {
    FindsClosingFence(t, b);
    assert (t + FENCE + b)[..|t|] == t;
    assert TrimStart(t) == t;
  }

  lemma ScanInJsonFence(response: string, a: string, body: string, n: nat)
    requires Trim(response) == a + JSON_FENCE + body && NoFence(a)
    requires FindChar(body, {'{', '['}) == Some(n)
    ensures ExtractForScan(response) == UpToFence(body[n..])
  {
    FindsJsonFence(a, body);
    assert (a + JSON_FENCE + body)[|a| + 7..] == body;
  }

  /** An answer cut short inside a json fence: everything from the first opening brace or
      bracket behind the fence to the end, without the white space there. */
  lemma ScanOpenJsonFence(pre: string, y: string, t: string)
    requires NoFence(pre) && LacksOpeners(y) && t != "" && Openers(t[0]) && NoFence(t)
    ensures ExtractForScan(pre + JSON_FENCE + y + t) == TrimEnd(t)
  {
    var e := TrimEnd(t);
    var tail := TrimEndSplits(t);
    FencelessParts(pre, t, |e|);
    assert t[..|e|] == e;
    TrimOpenFence(pre, y, t);
    FindsFirstOpener(y, e);
    ScanInJsonFence(pre + JSON_FENCE + y + t, TrimStart(pre), y + e, |y|);
    UpToNoFence(e);
  }

  lemma SolidBetween(fence: string, y: string, e: string)
    requires fence == JSON_FENCE || fence == FENCE
    requires Solid(e)
    ensures Solid(fence + y + e)
  {
    var mid := fence + y + e;
    assert mid[0] == fence[0] && mid[|mid| - 1] == e[|e| - 1];
  }

  lemma OpenFenceText(a: string, y: string, e: string, tail: string)
    ensures a + JSON_FENCE + y + (e + tail) == a + (JSON_FENCE + y + e) + tail
    ensures a + (JSON_FENCE + y + e) == a + JSON_FENCE + (y + e)
  {}

  /** The same where the fence is closed, for objects and arrays. */
  lemma ScanClosedJsonFence(pre: string, y: string, t: string, post: string)
    requires NoFence(pre) && LacksOpeners(y) && t != "" && Openers(t[0]) && Fenceless(t)
    ensures ExtractForScan(pre + JSON_FENCE + y + t + FENCE + post) == TrimEnd(t)
  {
    var a, b := TrimStart(pre), TrimEnd(post);
    FencelessParts(pre, t, 0);
    TrimFenced(pre, y + t, post);
    ClosedFenceText(pre, y, t, post);
    ClosedFenceText(a, y, t, b);
    FindsFirstOpener(y, t + FENCE + b);
    ScanInJsonFence(pre + JSON_FENCE + y + t + FENCE + post, a, y + (t + FENCE + b), |y|);
    UpToAFence(t, b);
  }

  lemma ClosedFenceText(a: string, y: string, t: string, b: string)
    ensures a + JSON_FENCE + y + t + FENCE + b == a + JSON_FENCE + (y + t) + FENCE + b
    ensures a + JSON_FENCE + (y + t) + FENCE + b == a + JSON_FENCE + (y + (t + FENCE + b))
  {}

  /** With nothing in an unclosed fence that opens a value, all of it. */
  lemma ScanOpenJsonProse(pre: string, w: string, t: string)
    requires NoFence(pre) && AllSpace(w) && NoFence(w + t) && LacksOpeners(w + t) && t != "" && !IsRustSpace(t[0])
    ensures ExtractForScan(pre + JSON_FENCE + w + t) == TrimEnd(t)
  {
    var e := TrimEnd(t);
    FencelessParts(pre, t, 0);
    TrimOpenFence(pre, w, t);
    EndLess(w, t);
    NoneFound(w + e, {'{', '['});
    NoFenceFound(w + e);
    TrimBehindSpace(w, e);
    ScanWithoutOpener(pre + JSON_FENCE + w + t, TrimStart(pre), w + e);
  }

  lemma EndLess(w: string, t: string)
    requires NoFence(w + t) && LacksOpeners(w + t) && t != "" && !IsRustSpace(t[0])
    ensures NoFence(w + TrimEnd(t)) && LacksOpeners(w + TrimEnd(t)) && Solid(TrimEnd(t))
  {
    var e := TrimEnd(t);
    var tail := TrimEndSplits(t);
    FencelessParts("", w + t, |w + e|);
    assert (w + t)[..|w + e|] == w + e;
  }

  lemma TrimOpenFence(pre: string, y: string, t: string)
    requires t != "" && !IsRustSpace(t[0])
    ensures Trim(pre + JSON_FENCE + y + t) == TrimStart(pre) + JSON_FENCE + (y + TrimEnd(t))
  {
    var e := TrimEnd(t);
    var tail := TrimEndSplits(t);
    SolidBetween(JSON_FENCE, y, e);
    TrimBefore(pre, JSON_FENCE + y + e, tail);
    OpenFenceText(pre, y, e, tail);
    OpenFenceText(TrimStart(pre), y, e, "");
  }

  lemma ScanWithoutOpener(response: string, a: string, body: string)
    requires Trim(response) == a + JSON_FENCE + body && NoFence(a)
    requires FindChar(body, {'{', '['}) == None && Find(body, FENCE) == None
    ensures ExtractForScan(response) == Trim(body)
  {
    FindsJsonFence(a, body);
    assert (a + JSON_FENCE + body)[|a| + 7..] == body;
  }

  lemma {:induction false} NoneFound(s: string, cs: set<char>)
    requires forall i | 0 <= i < |s| :: s[i] !in cs
    ensures FindChar(s, cs) == None
  {
    if s != "" { NoneFound(s[1..], cs); }
  }

  // ------------------------------------------------------------- another fence

  ghost predicate JsonAt(s: string, i: nat) { i + 7 <= |s| && FenceAt(s, i) && s[i + 3..i + 7] == "json" }

  lemma NoJsonFound(s: string)
    requires forall i: nat :: !JsonAt(s, i)
    ensures Find(s, JSON_FENCE) == None
  {
    forall i | 0 <= i <= |s|
      ensures !(JSON_FENCE <= s[i..])
    {
      if JSON_FENCE <= s[i..] {
        JsonFenceIs(s, i);
        assert s[i..][3..7] == s[i + 3..i + 7];
        assert JSON_FENCE[3..7] == "json";
        assert JsonAt(s, i);
      }
    }
    FindNone(s, JSON_FENCE);
  }

  /** The line of an opening fence that names no json: its language and its newline. */
  ghost predicate FenceLineRest(l: string) {
    l != "" && l[|l| - 1] == '\n' && (forall i | 0 <= i < |l| - 1 :: l[i] != '\n') && Lacks(l, '`') && !("json" <= l)
  }

  lemma OnlyOneFence(a: string, l: string, x: string)
    requires Fenceless(a) && FenceLineRest(l) && NoFence(x)
    ensures forall i: nat :: FenceAt(a + FENCE + l + x, i) ==> i == |a|
  {
    var s, n, m := a + FENCE + l + x, |a|, |a| + 3 + |l|;
    assert s[..n] == a && s[n + 3..m] == l && s[m..] == x;
    forall i: nat
      ensures FenceAt(s, i) ==> i == n
    {
      if i + 3 <= n { assert FenceAt(s, i) <==> FenceAt(s[..n], i); }
      else if i < n { assert s[n - 1] == s[..n][n - 1]; }
      else if n < i < n + 3 { assert s[n + 3] == s[n + 3..m][0]; }
      else if n + 3 <= i < m { assert s[i] == s[n + 3..m][i - n - 3]; }
      else if m <= i { assert FenceAt(s, i) <==> FenceAt(s[m..], i - m); }
    }
  }

  lemma NotJsonLine(a: string, l: string, x: string)
    requires FenceLineRest(l)
    ensures !JsonAt(a + FENCE + l + x, |a|)
  {
    var s, n := a + FENCE + l + x, |a| + 3;
    assert s[n..] == l + x;
    LineIsNotJson(l, x);
    assert |s| >= n + 4 ==> s[n..n + 4] == (l + x)[..4];
  }

  lemma LineIsNotJson(l: string, x: string)
    requires FenceLineRest(l)
    ensures |l + x| >= 4 ==> (l + x)[..4] != "json"
  {
    var t := l + x;
    assert t[|l| - 1] == '\n';
    if |l| < 4 {
      assert |t| >= 4 ==> t[..4][|l| - 1] == '\n';
    } else {
      assert t[..4] == l[..4];
    }
  }

  lemma ScanInOtherFence(response: string, a: string, l: string, x: string)
    requires Trim(response) == a + FENCE + l + x && Fenceless(a) && FenceLineRest(l)
    requires Find(a + FENCE + l + x, JSON_FENCE) == None
    ensures ExtractForScan(response) == UpToFence(x)
  {
    FindsClosingFence(a, l + x);
    OtherFenceBody(a, l, x);
    FirstNewline(l, x);
    ScanOther(response, |a|, l + x, |l| - 1);
  }

  lemma OtherFenceBody(a: string, l: string, x: string)
    ensures a + FENCE + l + x == a + FENCE + (l + x) && (a + FENCE + (l + x))[|a| + 3..] == l + x
  {}

  lemma FirstNewline(l: string, x: string)
    requires FenceLineRest(l)
    ensures FindChar(l + x, {'\n'}) == Some(|l| - 1) && (l + x)[|l|..] == x
  {
    var n := |l| - 1;
    FindCharAt(l[..n], '\n', x, {'\n'});
    assert l == l[..n] + ['\n'];
  }

  lemma ScanOther(response: string, i: nat, body: string, n: nat)
    requires Find(Trim(response), JSON_FENCE) == None && Find(Trim(response), FENCE) == Some(i)
    requires Trim(response)[i + 3..] == body && FindChar(body, {'\n'}) == Some(n)
    ensures ExtractForScan(response) == UpToFence(body[n + 1..])
  {
    LinesBehind(body, n);
  }

  lemma LinesBehind(body: string, n: nat)
    requires FindChar(body, {'\n'}) == Some(n)
    ensures InOtherFence(body) == UpToFence(body[n + 1..])
  {}

  /** An answer cut short inside any other fence: everything behind its first line. */
  lemma ScanOpenFence(pre: string, l: string, w: string, t: string)
    requires Fenceless(pre) && FenceLineRest(l) && AllSpace(w) && NoFence(w + t) && t != "" && !IsRustSpace(t[0])
    ensures ExtractForScan(pre + FENCE + l + (w + t)) == TrimEnd(t)
  {
    var e, a := TrimEnd(t), TrimStart(pre);
    var tail := TrimEndSplits(t);
    FencelessParts(pre, w + t, |w + e|);
    assert (w + t)[..|w + e|] == w + e;
    SolidBetween(FENCE, l + w, e);
    TrimBefore(pre, FENCE + (l + w) + e, tail);
    OtherFenceText(pre, l, w, e, tail);
    OtherFenceText(a, l, w, e, "");
    OtherFenceFinds(a, l, w, e);
    ScanInOtherFence(pre + FENCE + l + (w + t), a, l, w + e);
  }

  lemma OtherFenceFinds(a: string, l: string, w: string, e: string)
    requires Fenceless(a) && FenceLineRest(l) && AllSpace(w) && NoFence(w + e) && Solid(e)
    ensures Find(a + FENCE + l + (w + e), JSON_FENCE) == None && UpToFence(w + e) == e
  {
    OnlyOneFence(a, l, w + e);
    NotJsonLine(a, l, w + e);
    NoJsonFound(a + FENCE + l + (w + e));
    NoFenceFound(w + e);
    TrimBehindSpace(w, e);
  }

  lemma OtherFenceText(a: string, l: string, w: string, e: string, tail: string)
    ensures a + FENCE + l + (w + (e + tail)) == a + (FENCE + (l + w) + e) + tail
    ensures a + (FENCE + (l + w) + e) == a + FENCE + l + (w + e)
  {}

  /** And where the answer ends on the line of the fence, that line. */
  lemma ScanFenceOnly(pre: string, t: string)
    requires Fenceless(pre) && Lacks(t, '`') && Lacks(t, '\n') && t != "" && !IsRustSpace(t[0]) && !("json" <= t)
    ensures ExtractForScan(pre + FENCE + t) == TrimEnd(t)
  {
    OneLineKept(t);
    FencelessParts(pre, t, 0);
    TrimFenceOnly(pre, t);
    FenceOnlyFinds(pre + FENCE + t, TrimStart(pre), TrimEnd(t));
  }

  lemma OneLineKept(t: string)
    requires Lacks(t, '`') && Lacks(t, '\n') && t != "" && !IsRustSpace(t[0]) && !("json" <= t)
    ensures var e := TrimEnd(t); Solid(e) && Lacks(e, '`') && Lacks(e, '\n') && !("json" <= e)
  {
    var tail := TrimEndSplits(t);
    var e := TrimEnd(t);
    assert t[..|e|] == e;
    assert |e| >= 4 ==> e[..4] == t[..4];
  }

  lemma TrimFenceOnly(pre: string, t: string)
    requires t != "" && !IsRustSpace(t[0])
    ensures Trim(pre + FENCE + t) == TrimStart(pre) + FENCE + TrimEnd(t)
  {
    var e := TrimEnd(t);
    var tail := TrimEndSplits(t);
    SolidBetween(FENCE, "", e);
    assert FENCE + "" + e == FENCE + e;
    TrimBefore(pre, FENCE + e, tail);
    FenceOnlyText(pre, e, tail);
    FenceOnlyText(TrimStart(pre), e, "");
  }

  lemma FenceOnlyFinds(response: string, a: string, e: string)
    requires Trim(response) == a + FENCE + e && Fenceless(a) && Solid(e)
    requires Lacks(e, '`') && Lacks(e, '\n') && !("json" <= e)
    ensures ExtractForScan(response) == e
  {
    OneFenceOnly(a, e);
    NoJsonFound(a + FENCE + e);
    FindsClosingFence(a, e);
    NoneFound(e, {'\n'});
    UpToNoFence(e);
    ScanOneLine(response, |a|, e);
  }

  lemma ScanOneLine(response: string, i: nat, body: string)
    requires Find(Trim(response), JSON_FENCE) == None && Find(Trim(response), FENCE) == Some(i)
    requires Trim(response)[i + 3..] == body && FindChar(body, {'\n'}) == None
    ensures ExtractForScan(response) == UpToFence(body)
  {}

  lemma FenceOnlyText(a: string, e: string, tail: string)
    ensures a + FENCE + (e + tail) == a + (FENCE + e) + tail
    ensures a + (FENCE + e) == a + FENCE + e
  {}

  lemma OneFenceOnly(a: string, e: string)
    requires Fenceless(a) && Lacks(e, '`') && e != "" && !("json" <= e)
    ensures NoFence(e) && forall i: nat :: !JsonAt(a + FENCE + e, i)
  {
    var s, n := a + FENCE + e, |a|;
    assert s[..n] == a && s[n + 3..] == e;
    assert |e| >= 4 ==> s[n + 3..n + 7] == e[..4];
    forall i: nat
      ensures FenceAt(s, i) ==> i == n
    {
      if i + 3 <= n { assert FenceAt(s, i) <==> FenceAt(s[..n], i); }
      else if i < n { assert s[n - 1] == s[..n][n - 1]; }
      else if n < i < n + 3 { assert s[n + 3] == s[n + 3..][0]; }
      else if n + 3 <= i < |s| { assert s[i] == s[n + 3..][i - n - 3]; }
    }
  }

  /** What may follow the closing fence: neither another backtick nor the word json. */
  ghost predicate Follows(post: string) { NoFence(post) && (post == "" || post[0] != '`') && !("json" <= post) }

  lemma OnlyTwoFences(a: string, l: string, x: string, b: string)
    requires Fenceless(a) && FenceLineRest(l) && Fenceless(x) && Follows(b)
    ensures var s := a + FENCE + l + x + FENCE + b;
            forall i: nat :: FenceAt(s, i) ==> i == |a| || i == |a| + 3 + |l| + |x|
  {
    var s, front := a + FENCE + l + x + FENCE + b, a + FENCE + l + x;
    var n := |front|;
    OnlyOneFence(a, l, x);
    assert s[..n] == front && s[n + 3..] == b;
    assert front[n - 1] != '`' by {
      if x == "" { assert front[n - 1] == l[|l| - 1]; } else { assert front[n - 1] == x[|x| - 1]; }
    }
    forall i: nat
      ensures FenceAt(s, i) ==> i == |a| || i == n
    {
      if i + 3 <= n { assert FenceAt(s, i) <==> FenceAt(s[..n], i); }
      else if i < n { assert s[n - 1] == s[..n][n - 1]; }
      else if n < i < n + 3 && n + 3 < |s| { assert s[n + 3] == s[n + 3..][0]; }
      else if n + 3 <= i { assert FenceAt(s, i) <==> FenceAt(s[n + 3..], i - n - 3); }
    }
  }

  lemma NoJsonInTwo(a: string, l: string, x: string, b: string)
    requires Fenceless(a) && FenceLineRest(l) && Fenceless(x) && Follows(b)
    ensures Find(a + FENCE + l + x + FENCE + b, JSON_FENCE) == None
  {
    var s, n := a + FENCE + l + x + FENCE + b, |a| + 3 + |l| + |x|;
    OnlyTwoFences(a, l, x, b);
    NotJsonLine(a, l, x + FENCE + b);
    assert s == a + FENCE + l + (x + FENCE + b);
    assert s[n + 3..] == b;
    assert |s| >= n + 7 ==> s[n + 3..n + 7] == b[..4];
    NoJsonFound(s);
  }

  /** And the same where it is closed. */
  lemma ScanClosedFence(pre: string, l: string, w: string, t: string, post: string)
    requires Fenceless(pre) && FenceLineRest(l) && AllSpace(w) && Fenceless(w + t) && Follows(post)
    requires t != "" && !IsRustSpace(t[0])
    ensures ExtractForScan(pre + FENCE + l + (w + t) + FENCE + post) == TrimEnd(t)
  {
    var a, b, x := TrimStart(pre), TrimEnd(post), w + t;
    FencelessParts(pre, t, 0);
    FollowsTrimmed(post);
    SolidBetween(FENCE, l + x, FENCE);
    TrimAround(pre, FENCE + (l + x) + FENCE, post);
    TwoFencesText(pre, l, x, post);
    TwoFencesText(a, l, x, b);
    NoJsonInTwo(a, l, x, b);
    ScanInOtherFence(pre + FENCE + l + x + FENCE + post, a, l, x + FENCE + b);
    UpToClosed(w, t, b);
  }

  lemma UpToClosed(w: string, t: string, b: string)
    requires AllSpace(w) && Fenceless(w + t) && t != "" && !IsRustSpace(t[0])
    ensures UpToFence((w + t) + FENCE + b) == TrimEnd(t)
  {
    var x := w + t;
    FindsClosingFence(x, b);
    assert (x + FENCE + b)[..|x|] == x;
    TrimSplit(w, t);
  }

  lemma TwoFencesText(a: string, l: string, x: string, b: string)
    ensures a + (FENCE + (l + x) + FENCE) + b == a + FENCE + l + x + FENCE + b
    ensures a + FENCE + l + x + FENCE + b == a + FENCE + l + (x + FENCE + b)
  {}

  lemma TrimSplit(w: string, t: string)
    requires AllSpace(w) && t != "" && !IsRustSpace(t[0])
    ensures Trim(w + t) == TrimEnd(t)
  {
    var tail := TrimEndSplits(t);
    TrimBefore(w, TrimEnd(t), tail);
    TrimSpace(w);
    Assoc3(w, TrimEnd(t), tail);
    assert "" + TrimEnd(t) == TrimEnd(t);
  }

  lemma FollowsTrimmed(post: string)
    requires Follows(post)
    ensures Follows(TrimEnd(post))
  {
    var k := TrimEndIsPart(post);
    assert forall i: nat :: FenceAt(TrimEnd(post), i) ==> FenceAt(post, i);
    assert k >= 4 ==> post[..k][..4] == post[..4];
  }

  // -------------------------------------------------------------------- no fence

  /** What the braces of an unfenced answer leave of it: up to the last closing brace if
      there is one, and else everything. */
  function BarePart(t: string): string {
    match RFindChar(t, '}')
    case Some(j) => t[..j + 1]
    case None => TrimEnd(t)
  }

  /** An answer without a fence that may break off anywhere behind its first brace. */
  lemma ScanBare(pre: string, t: string)
    requires Leading(pre) && NoFence(t) && t != "" && t[0] == '{'
    ensures ExtractForScan(pre + t) == BarePart(t)
  {
    var e, a := TrimEnd(t), TrimStart(pre);
    var tail := TrimEndSplits(t);
    FencelessParts(pre, t, |e|);
    assert t[..|e|] == e;
    TrimBefore(pre, e, tail);
    Assoc3(pre, e, tail);
    BareFinds(a, e);
    RFindTrimmed(e, tail);
    ScanBareIs(pre + t, a, e);
    BarePartOf(e, tail);
  }

  lemma BarePartOf(e: string, tail: string)
    requires AllSpace(tail) && TrimEnd(e + tail) == e
    ensures BarePart(e + tail) == match RFindChar(e, '}') case Some(j) => e[..j + 1] case None => e
  {
    RFindTrimmed(e, tail);
    match RFindChar(e, '}')
    case Some(j) => assert (e + tail)[..j + 1] == e[..j + 1];
    case None =>
  }

  lemma BareFinds(a: string, e: string)
    requires Leading(a) && NoFence(e) && e != "" && e[0] == '{'
    ensures Find(a + e, JSON_FENCE) == None && Find(a + e, FENCE) == None
    ensures FindChar(a + e, {'{'}) == Some(|a|) && (a + e)[|a|..] == e
    ensures match RFindChar(e, '}')
            case Some(j) => RFindChar(a + e, '}') == Some(|a| + j)
            case None => RFindChar(a + e, '}').None? || RFindChar(a + e, '}').value < |a|
  {
    BareHasNoFence(a, e);
    NoFenceFound(a + e);
    FirstOpening(a, e);
    RFindBehind(a, e);
  }

  lemma FirstOpening(a: string, e: string)
    requires Lacks(a, '{') && e != "" && e[0] == '{'
    ensures FindChar(a + e, {'{'}) == Some(|a|) && (a + e)[|a|..] == e
  {
    FindCharAt(a, '{', e[1..], {'{'});
    assert e == ['{'] + e[1..];
    Assoc3(a, ['{'], e[1..]);
  }

  lemma BareHasNoFence(a: string, e: string)
    requires NoFence(a) && NoFence(e) && e != "" && e[0] == '{'
    ensures NoFence(a + e)
  {
    var s, n := a + e, |a|;
    assert s[..n] == a && s[n..] == e && s[n] == '{';
    forall i: nat
      ensures !FenceAt(s, i)
    {
      if i + 3 <= n { assert FenceAt(s, i) <==> FenceAt(s[..n], i); }
      else if n <= i { assert FenceAt(s, i) <==> FenceAt(s[n..], i - n); }
    }
  }

  /** The last closing brace, when e begins with an opening one. */
  lemma {:induction false} RFindBehind(a: string, e: string)
    ensures RFindChar(e, '}').Some? ==> RFindChar(a + e, '}') == Some(|a| + RFindChar(e, '}').value)
    ensures RFindChar(e, '}').None? ==> RFindChar(a + e, '}').None? || RFindChar(a + e, '}').value < |a|
    decreases |e|
  {
    if e == "" {
      assert a + e == a;
    } else if e[|e| - 1] != '}' {
      assert (a + e)[..|a + e| - 1] == a + e[..|e| - 1];
      RFindBehind(a, e[..|e| - 1]);
    }
  }

  lemma {:induction false} RFindTrimmed(e: string, tail: string)
    requires AllSpace(tail)
    ensures RFindChar(e + tail, '}') == RFindChar(e, '}')
    decreases |tail|
  {
    if tail == "" {
      assert e + tail == e;
    } else {
      assert (e + tail)[..|e + tail| - 1] == e + tail[..|tail| - 1];
      RFindTrimmed(e, tail[..|tail| - 1]);
    }
  }

  lemma ScanBareIs(response: string, a: string, e: string)
    requires Trim(response) == a + e && Find(a + e, JSON_FENCE) == None && Find(a + e, FENCE) == None
    requires e != "" && e[0] == '{' && FindChar(a + e, {'{'}) == Some(|a|) && (a + e)[|a|..] == e
    requires match RFindChar(e, '}')
             case Some(j) => RFindChar(a + e, '}') == Some(|a| + j)
             case None => RFindChar(a + e, '}').None? || RFindChar(a + e, '}').value < |a|
    ensures ExtractForScan(response) == match RFindChar(e, '}') case Some(j) => e[..j + 1] case None => e
  {
    ScanUnfenced(response, |a|, RFindChar(a + e, '}'));
    if RFindChar(e, '}').Some? {
      var j := RFindChar(e, '}').value;
      LastIsBrace(e, j);
      SliceBehind(a, e, j);
    }
  }

  lemma SliceBehind(a: string, e: string, j: nat)
    requires j < |e|
    ensures (a + e)[|a|..|a| + j + 1] == e[..j + 1]
  {}

  lemma ScanUnfenced(response: string, start: nat, last: Option<nat>)
    requires Find(Trim(response), JSON_FENCE) == None && Find(Trim(response), FENCE) == None
    requires FindChar(Trim(response), {'{'}) == Some(start) && RFindChar(Trim(response), '}') == last
    ensures ExtractForScan(response) == SliceUpTo(Trim(response), start, last)
  {
    BracesIn(Trim(response), start, last);
  }

  function SliceUpTo(s: string, start: nat, last: Option<nat>): string
    requires start < |s| && (last.Some? ==> last.value < |s|)
  {
    if last.Some? && last.value > start then s[start..last.value + 1] else s[start..]
  }

  lemma BracesIn(s: string, start: nat, last: Option<nat>)
    requires FindChar(s, {'{'}) == Some(start) && RFindChar(s, '}') == last
    ensures InNoFence(s) == SliceUpTo(s, start, last)
  {}

  lemma {:induction false} LastIsBrace(e: string, j: nat)
    requires RFindChar(e, '}') == Some(j)
    ensures e[j] == '}'
    decreases |e|
  {
    if e[|e| - 1] != '}' { LastIsBrace(e[..|e| - 1], j); }
  }

  /** With neither a fence nor an opening brace there is nothing to extract. */
  lemma ScanPlain(s: string)
    requires NoFence(s) && Lacks(s, '{')
    ensures ExtractForScan(s) == Trim(s)
  {
    var k := TrimStartIsPart(s);
    var j := TrimEndIsPart(TrimStart(s));
    var t := Trim(s);
    assert forall i: nat :: FenceAt(t, i) ==> FenceAt(s, k + i);
    NoFenceFound(t);
    NoCharFound(t, '{');
  }

  lemma {:induction false} NoCharFound(s: string, c: char)
    requires Lacks(s, c)
    ensures FindChar(s, {c}) == None && RFindChar(s, c) == None
    decreases |s|
  {
    if s != "" {
      NoCharFound(s[1..], c);
      NoCharFound(s[..|s| - 1], c);
    }
  }

  /** The code review's extractor drops the opening fence of an answer cut short before
      its first closing brace, and keeps the rest. */
  lemma ReviewOpenJsonFence(pre: string, w: string, t: string)
    requires AllSpace(pre) && AllSpace(w) && NoFence(t) && Lacks(t, '}') && t != "" && t[0] == '{'
    ensures ExtractForReview(pre + JSON_FENCE + w + t) == TrimEnd(t)
  {
    var e := TrimEnd(t);
    var tail := TrimEndSplits(t);
    SolidBetween(JSON_FENCE, w, e);
    TrimBefore(pre, JSON_FENCE + w + e, tail);
    TrimSpace(pre);
    OpenFenceText(pre, w, e, tail);
    FencelessParts("", t, |e|);
    assert t[..|e|] == e && Lacks(e, '}');
    ReviewFinds(w, e);
    assert "" + (JSON_FENCE + w + e) == JSON_FENCE + w + e;
    ReviewStripped(pre + JSON_FENCE + w + t, w + e, e);
  }

  lemma FenceBefore(w: string, e: string)
    ensures var mid := JSON_FENCE + w + e; JSON_FENCE <= mid && mid[7..] == w + e
  {
    Assoc3(JSON_FENCE, w, e);
  }

  lemma ReviewFinds(w: string, e: string)
    requires AllSpace(w) && NoFence(e) && Lacks(e, '}') && Solid(e) && e[0] == '{'
    ensures var mid := JSON_FENCE + w + e; JSON_FENCE <= mid && mid[7..] == w + e
    ensures StripSuffix(w + e, FENCE) == w + e && Trim(w + e) == e && RFindChar(e, '}') == None
  {
    FenceBefore(w, e);
    NoFenceSuffix(w, e);
    TrimBehindSpace(w, e);
    NoCharFound(e, '}');
  }

  lemma ReviewStripped(raw: string, x: string, e: string)
    requires JSON_FENCE <= Trim(raw) && Trim(raw)[7..] == x && StripSuffix(x, FENCE) == x && Trim(x) == e
    requires RFindChar(e, '}') == None
    ensures ExtractForReview(raw) == e
  {}

  lemma NoFenceSuffix(w: string, e: string)
    requires NoFence(e) && Solid(e) && e[0] == '{' && AllSpace(w)
    ensures StripSuffix(w + e, FENCE) == w + e
  {
    var s := w + e;
    if |e| >= 3 {
      var i := |e| - 3;
      assert !FenceAt(e, i) && s[|s| - 3..] == e[i..];
      assert e[i..][0] == e[i] && e[i..][1] == e[i + 1] && e[i..][2] == e[i + 2];
    } else if |s| >= 3 {
      assert s[|s| - 3..][3 - |e|] == e[0];
    }
  }

  /** The refactoring assistant returns such an answer whole. */
  lemma RefactorWhole(s: string)
    requires NoFencedBlock(s) && (Lacks(s, '{') || Lacks(s, '}'))
    ensures ExtractForRefactor(s) == Some(s)
  {
    if Lacks(s, '{') { NoCharFound(s, '{'); } else { NoCharFound(s, '}'); }
  }

  // --------------------------------------------------- extraction, then repair

  /** What the repair makes of the first m characters of a JSON text. */
  ghost predicate Mended(text: string, v: Value, m: nat)
    requires ValueOk(v) && v.VBox? && 0 < m < |Text(v)|
  {
    var r := JsonRepair.Repair(text);
    && text == Text(v)[..m] && r.Some?
    && (Parse(r.value).Some? <==> JsonCut.Mendable(JsonCut.TipOf(JsonCut.CutValue(v, m))))
    && (Parse(r.value).Some? ==> JsonCut.Truncates(Tree(v), Parse(r.value).value))
  }

  lemma PrefixIsMended(v: Value, m: nat)
    requires ValueOk(v) && v.VBox? && 0 < m < |Text(v)|
    ensures Mended(Text(v)[..m], v, m)
  {
    JsonMeaning.RepairPreservesMeaning("", v, m);
    assert "" + Text(v)[..m] == Text(v)[..m];
  }

  /** A container that arrives cut short in an unclosed json fence is extracted up to the
      white space at its end, and then repaired exactly when it stops at a mendable place,
      to the original tree truncated. */
  lemma FencedCutIsMended(pre: string, y: string, v: Value, n: nat) returns (m: nat)
    requires NoFence(pre) && LacksOpeners(y)
    requires ValueOk(v) && v.VBox? && 0 < n < |Text(v)| && NoFence(Text(v)[..n])
    ensures 0 < m <= n && AllSpace(Text(v)[m..n])
    ensures Mended(ExtractForScan(pre + JSON_FENCE + y + Text(v)[..n]), v, m)
  {
    var t := Text(v)[..n];
    assert t[0] == Opener(v.kind);
    TrimmedTail(t);
    m := |TrimEnd(t)|;
    ScanOpenJsonFence(pre, y, t);
    assert t[..m] == Text(v)[..m] && t[m..] == Text(v)[m..n];
    PrefixIsMended(v, m);
  }

  lemma BarePartIsPrefix(t: string)
    requires t != "" && !IsRustSpace(t[0])
    ensures var m := |BarePart(t)|; 0 < m <= |t| && BarePart(t) == t[..m]
  {
    TrimmedTail(t);
  }

  /** An object that arrives cut short without a fence is extracted up to its last closing
      brace, or to the white space at its end if there is none, and then repaired. */
  lemma BareCutIsMended(pre: string, v: Value, n: nat) returns (m: nat)
    requires Leading(pre)
    requires ValueOk(v) && v.VBox? && v.kind == Object && 0 < n < |Text(v)| && NoFence(Text(v)[..n])
    ensures 0 < m <= n && Text(v)[..m] == BarePart(Text(v)[..n])
    ensures Mended(ExtractForScan(pre + Text(v)[..n]), v, m)
  {
    var t := Text(v)[..n];
    assert t[0] == '{';
    BarePartIsPrefix(t);
    m := |BarePart(t)|;
    ScanBare(pre, t);
    assert t[..m] == Text(v)[..m];
    PrefixIsMended(v, m);
  }
}
