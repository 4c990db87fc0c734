/** The three extractors that look for JSON in a model's answer: src/auto_scanner.rs,
    src/code_review.rs and src/refactor_assistant.rs. */
module JsonExtraction {
  import opened Wrappers
  import opened RustStrings
  import opened JsonGrammar

  const FENCE := "```"
  const JSON_FENCE := "```json"
  const FENCE_LINE := "```\n"

  /** `str::find` for a string. */
  function Find(s: string, pat: string): (r: Option<nat>)
    ensures r.Some? ==> r.value + |pat| <= |s|
    decreases |s|
  {
    if pat <= s then Some(0)
    else if s == "" then None
    else
      match Find(s[1..], pat)
      case None => None
      case Some(i) => Some(i + 1)
  }

  /** `str::find` and `str::rfind` for one of some characters. */
  function FindChar(s: string, cs: set<char>): (r: Option<nat>)
    ensures r.Some? ==> r.value < |s|
    decreases |s|
  {
    if s == "" then None
    else if s[0] in cs then Some(0)
    else
      match FindChar(s[1..], cs)
      case None => None
      case Some(i) => Some(i + 1)
  }

  function RFindChar(s: string, c: char): (r: Option<nat>)
    ensures r.Some? ==> r.value < |s|
    decreases |s|
  {
    if s == "" then None
    else if s[|s| - 1] == c then Some(|s| - 1)
    else RFindChar(s[..|s| - 1], c)
  }

  // --------------------------------------------------------------- extractors

  /** Up to the next fence if there is one, trimmed. */
  function UpToFence(s: string): string {
    match Find(s, FENCE)
    case Some(end) => Trim(s[..end])
    case None => Trim(s)
  }

  /** Behind a json fence: from the first opening brace or bracket on. */
  function InJsonFence(body: string): string {
    match FindChar(body, {'{', '['})
    case Some(n) => UpToFence(body[n..])
    case None => UpToFence(body)
  }

  /** Behind any other fence: from its second line on. */
  function InOtherFence(body: string): string {
    match FindChar(body, {'\n'})
    case Some(n) => UpToFence(body[n + 1..])
    case None => UpToFence(body)
  }

  /** Without a fence: from the first opening to the last closing brace. */
  function InNoFence(s: string): string {
    match FindChar(s, {'{'})
    case None => s
    case Some(start) =>
      match RFindChar(s, '}')
      case Some(end) => if end > start then s[start..end + 1] else s[start..]
      case None => s[start..]
  }

  /** auto_scanner: extract_json_from_response. */
  function ExtractForScan(response: string): string {
    var trimmed := Trim(response);
    match Find(trimmed, JSON_FENCE)
    case Some(start) => InJsonFence(trimmed[start + 7..])
    case None =>
      match Find(trimmed, FENCE)
      case Some(start) => InOtherFence(trimmed[start + 3..])
      case None => InNoFence(trimmed)
  }

  function StripSuffix(s: string, suffix: string): string {
    if |suffix| <= |s| && s[|s| - |suffix|..] == suffix then s[..|s| - |suffix|] else s
  }

  /** From the first opening to the last closing brace, or everything. */
  function BracedPart(s: string): string {
    var start, end := FindChar(s, {'{'}), RFindChar(s, '}');
    if start.Some? && end.Some? && end.value > start.value then s[start.value..end.value + 1] else s
  }

  /** code_review: strip_to_json. */
  function ExtractForReview(raw: string): string {
    var trimmed := Trim(raw);
    var candidate :=
      if JSON_FENCE <= trimmed then Trim(StripSuffix(trimmed[7..], FENCE))
      else if FENCE <= trimmed then Trim(StripSuffix(trimmed[3..], FENCE))
      else trimmed;
    BracedPart(candidate)
  }

  /** refactor_assistant: extract_json.  A last closing brace before the first opening
      one makes the source's slice panic: None. */
  function ExtractForRefactor(response: string): Option<string> {
    var start := Find(response, JSON_FENCE);
    var end := if start.Some? then Find(response[start.value..], FENCE_LINE) else None;
    if end.Some? && start.value + end.value >= start.value + 7 then
      Some(Trim(response[start.value + 7..start.value + end.value]))
    else if end.Some? then None
    else Braced(response)
  }

  /** From the first opening to the last closing brace. */
  function Braced(response: string): Option<string> {
    SliceTo(response, FindChar(response, {'{'}), RFindChar(response, '}'))
  }

  /** Two braces side by side the wrong way round still make an empty slice. */
  function SliceTo(s: string, first: Option<nat>, last: Option<nat>): Option<string>
    requires last.Some? ==> last.value < |s|
  {
    if first.None? || last.None? then Some(s)
    else if first.value <= last.value + 1 then Some(s[first.value..last.value + 1])
    else None
  }

  // ----------------------------------------------------------------- searching

  predicate FenceAt(s: string, i: nat) {
    i + 3 <= |s| && s[i] == '`' && s[i + 1] == '`' && s[i + 2] == '`'
  }

  ghost predicate NoFence(s: string) { forall i: nat :: !FenceAt(s, i) }

  predicate AllSpace(s: string) { forall i | 0 <= i < |s| :: IsRustSpace(s[i]) }

  /** The pattern is found where it stands when it starts nowhere before. */
  lemma {:induction false} FindFirst(a: string, pat: string, b: string)
    requires forall i | 0 <= i < |a| :: !(pat <= (a + pat + b)[i..])
    ensures Find(a + pat + b, pat) == Some(|a|)
    decreases |a|
  {
    var s := a + pat + b;
    if a == "" {
      assert s == pat + b;
    } else {
      assert s[0..] == s;
      var t := a[1..] + pat + b;
      assert s[1..] == t;
      forall i | 0 <= i < |a[1..]|
        ensures !(pat <= t[i..])
      {
        assert t[i..] == s[i + 1..];
      }
      FindFirst(a[1..], pat, b);
    }
  }

  lemma {:induction false} FindNone(s: string, pat: string)
    requires pat != "" && forall i | 0 <= i <= |s| :: !(pat <= s[i..])
    ensures Find(s, pat) == None
    decreases |s|
  {
    assert s[0..] == s;
    if s != "" {
      forall i | 0 <= i <= |s[1..]|
        ensures !(pat <= s[1..][i..])
      {
        assert s[1..][i..] == s[i + 1..];
      }
      FindNone(s[1..], pat);
    }
  }

  lemma {:induction false} FindCharAt(a: string, c: char, b: string, cs: set<char>)
    requires c in cs && forall i | 0 <= i < |a| :: a[i] !in cs
    ensures FindChar(a + [c] + b, cs) == Some(|a|)
    decreases |a|
  {
    if a == "" {
      assert a + [c] + b == [c] + b;
    } else {
      assert (a + [c] + b)[1..] == a[1..] + [c] + b;
      FindCharAt(a[1..], c, b, cs);
    }
  }

  lemma {:induction false} RFindCharAt(a: string, c: char, b: string)
    requires forall i | 0 <= i < |b| :: b[i] != c
    ensures RFindChar(a + [c] + b, c) == Some(|a|)
    decreases |b|
  {
    var s := a + [c] + b;
    if b == "" {
      assert s == a + [c];
    } else {
      assert s[..|s| - 1] == a + [c] + b[..|b| - 1];
      RFindCharAt(a, c, b[..|b| - 1]);
    }
  }

  lemma JsonFenceIs(s: string, i: nat)
    requires i <= |s|
    ensures JSON_FENCE <= s[i..] ==>
              i + 7 <= |s| && FenceAt(s, i) && s[i + 3] == 'j'
  {
    var t := s[i..];
    assert JSON_FENCE <= t ==> forall k | 0 <= k < 4 :: t[k] == JSON_FENCE[k];
  }

  /** A json fence behind text without fences is the first one. */
  lemma FindsJsonFence(pre: string, tail: string)
    requires NoFence(pre)
    ensures Find(pre + JSON_FENCE + tail, JSON_FENCE) == Some(|pre|)
  {
    var s := pre + JSON_FENCE + tail;
    assert forall k | 0 <= k < |pre| :: s[k] == pre[k];
    assert s[|pre|] == '`' && s[|pre| + 1] == '`' && s[|pre| + 2] == '`';
    forall i | 0 <= i < |pre|
      ensures !(JSON_FENCE <= s[i..])
    {
      JsonFenceIs(s, i);
      assert i + 3 <= |pre| ==> (FenceAt(s, i) <==> FenceAt(pre, i));
    }
    FindFirst(pre, JSON_FENCE, tail);
  }

  /** A fence behind text that has none and does not end in a backtick. */
  lemma FindsClosingFence(a: string, b: string)
    requires NoFence(a) && (a == "" || a[|a| - 1] != '`')
    ensures Find(a + FENCE + b, FENCE) == Some(|a|)
  {
    var s := a + FENCE + b;
    assert forall k | 0 <= k < |a| :: s[k] == a[k];
    forall i | 0 <= i < |a|
      ensures !(FENCE <= s[i..])
    {
      FenceIs(s, i);
      assert i + 3 <= |a| ==> (FenceAt(s, i) <==> FenceAt(a, i));
    }
    FindFirst(a, FENCE, b);
  }

  lemma FenceIs(s: string, i: nat)
    requires i <= |s|
    ensures FENCE <= s[i..] ==> FenceAt(s, i)
  {
    var t := s[i..];
    assert FENCE <= t ==> t[0] == FENCE[0] && t[1] == FENCE[1] && t[2] == FENCE[2];
  }

  lemma NoFenceFound(s: string)
    requires NoFence(s)
    ensures Find(s, FENCE) == None && Find(s, JSON_FENCE) == None
    ensures !(FENCE <= s) && !(JSON_FENCE <= s)
  {
    forall i | 0 <= i <= |s|
      ensures !(FENCE <= s[i..]) && !(JSON_FENCE <= s[i..])
    {
      FenceIs(s, i);
      JsonFenceIs(s, i);
    }
    assert s[0..] == s;
    FindNone(s, FENCE);
    FindNone(s, JSON_FENCE);
  }

  // ------------------------------------------------------------------ trimming

  lemma {:induction false} TrimStartStops(a: string, b: string)
    requires b != "" && !IsRustSpace(b[0])
    ensures TrimStart(a + b) == TrimStart(a) + b
    decreases |a|
  {
    if a == "" {
      assert a + b == b;
    } else if IsRustSpace(a[0]) {
      assert (a + b)[1..] == a[1..] + b;
      TrimStartStops(a[1..], b);
    }
  }

  lemma {:induction false} TrimEndStops(a: string, b: string)
    requires a != "" && !IsRustSpace(a[|a| - 1])
    ensures TrimEnd(a + b) == a + TrimEnd(b)
    decreases |b|
  {
    if b == "" {
      assert a + b == a;
    } else if IsRustSpace(b[|b| - 1]) {
      assert (a + b)[..|a + b| - 1] == a + b[..|b| - 1];
      TrimEndStops(a, b[..|b| - 1]);
    }
  }

  lemma {:induction false} TrimSpace(s: string)
    requires AllSpace(s)
    ensures TrimStart(s) == "" && TrimEnd(s) == ""
    decreases |s|
  {
    if s != "" {
      TrimSpace(s[1..]);
      TrimSpace(s[..|s| - 1]);
    }
  }

  /** Trimming around a solid middle trims only the ends. */
  lemma TrimAround(a: string, mid: string, b: string)
    requires mid != "" && !IsRustSpace(mid[0]) && !IsRustSpace(mid[|mid| - 1])
    ensures Trim(a + mid + b) == TrimStart(a) + mid + TrimEnd(b)
  {
    TrimStartAround(a, mid, b);
    TrimEndAround(TrimStart(a), mid, b);
  }

  lemma TrimStartAround(a: string, mid: string, b: string)
    requires mid != "" && !IsRustSpace(mid[0])
    ensures TrimStart(a + mid + b) == TrimStart(a) + mid + b
  {
    TrimStartStops(a, mid + b);
    assert a + mid + b == a + (mid + b);
    assert TrimStart(a) + mid + b == TrimStart(a) + (mid + b);
  }

  lemma TrimEndAround(a: string, mid: string, b: string)
    requires mid != "" && !IsRustSpace(mid[|mid| - 1])
    ensures TrimEnd(a + mid + b) == a + mid + TrimEnd(b)
  {
    assert (a + mid)[|a + mid| - 1] == mid[|mid| - 1];
    TrimEndStops(a + mid, b);
  }

  /** Trimming leaves a part. */
  lemma {:induction false} TrimStartIsPart(a: string) returns (k: nat)
    ensures k <= |a| && TrimStart(a) == a[k..]
    decreases |a|
  {
    if a != "" && IsRustSpace(a[0]) {
      var j := TrimStartIsPart(a[1..]);
      k := j + 1;
    } else {
      k := 0;
    }
  }

  lemma {:induction false} TrimEndIsPart(a: string) returns (k: nat)
    ensures k <= |a| && TrimEnd(a) == a[..k]
    decreases |a|
  {
    if a != "" && IsRustSpace(a[|a| - 1]) {
      k := TrimEndIsPart(a[..|a| - 1]);
    } else {
      k := |a|;
    }
  }

  // ------------------------------------------------------------------ payloads

  /** A JSON object as the extractors see it: braces at both ends, no fence inside. */
  ghost predicate Payload(p: string) { |p| >= 2 && p[0] == '{' && p[|p| - 1] == '}' && NoFence(p) }

  predicate Lacks(s: string, c: char) { forall i | 0 <= i < |s| :: s[i] != c }

  ghost predicate Leading(s: string) { NoFence(s) && Lacks(s, '{') }

  ghost predicate Trailing(s: string) { NoFence(s) && Lacks(s, '}') }

  /** The first opening and the last closing brace are those of the payload. */
  lemma BracesFindPayload(a: string, p: string, b: string)
    requires Payload(p) && Lacks(a, '{') && Lacks(b, '}')
    ensures FindChar(a + p + b, {'{'}) == Some(|a|)
    ensures RFindChar(a + p + b, '}') == Some(|a| + |p| - 1)
    ensures (a + p + b)[|a|..|a| + |p|] == p && BracedPart(a + p + b) == p
  {
    FirstBrace(a, p, b);
    LastBrace(a, p, b);
    assert (a + p + b)[|a|..|a| + |p|] == p;
  }

  lemma FirstBrace(a: string, p: string, b: string)
    requires Payload(p) && Lacks(a, '{')
    ensures FindChar(a + p + b, {'{'}) == Some(|a|)
  {
    FindCharAt(a, '{', p[1..] + b, {'{'});
    assert a + p + b == a + ['{'] + (p[1..] + b);
  }

  lemma LastBrace(a: string, p: string, b: string)
    requires Payload(p) && Lacks(b, '}')
    ensures RFindChar(a + p + b, '}') == Some(|a| + |p| - 1)
  {
    SplitLast(a, p, b);
    RFindCharAt(a + p[..|p| - 1], '}', b);
  }

  lemma SplitLast(a: string, p: string, b: string)
    requires p != "" && p[|p| - 1] == '}'
    ensures a + p + b == (a + p[..|p| - 1]) + ['}'] + b
  {
    assert p == p[..|p| - 1] + ['}'];
  }

  lemma TrimmedParts(pre: string, post: string)
    ensures Leading(pre) ==> Leading(TrimStart(pre))
    ensures Trailing(post) ==> Trailing(TrimEnd(post))
    ensures Lacks(pre, '{') ==> Lacks(TrimStart(pre), '{')
    ensures Lacks(post, '}') ==> Lacks(TrimEnd(post), '}')
  {
    var k := TrimStartIsPart(pre);
    var j := TrimEndIsPart(post);
    assert forall i: nat :: FenceAt(TrimStart(pre), i) ==> FenceAt(pre, k + i);
    assert forall i: nat :: FenceAt(TrimEnd(post), i) ==> FenceAt(post, i);
  }

  /** Fences cannot form across a brace. */
  lemma NoFenceAcross(a: string, p: string, b: string)
    requires NoFence(a) && Payload(p) && NoFence(b)
    ensures NoFence(a + p + b)
  {
    var s := a + p + b;
    assert s[|a|] == '{' && s[|a| + |p| - 1] == '}';
    forall i: nat
      ensures !FenceAt(s, i)
    {
      if i + 3 <= |a| {
        assert FenceAt(s, i) <==> FenceAt(a, i);
      } else if |a| <= i && i + 3 <= |a| + |p| {
        assert FenceAt(s, i) <==> FenceAt(p, i - |a|);
      } else if |a| + |p| <= i {
        assert FenceAt(s, i) <==> FenceAt(b, i - |a| - |p|);
      }
    }
  }

  // ------------------------------------------------------------- main theorems

  // Each extractor, given what its searches find.

  predicate NoFencedBlock(s: string) {
    match Find(s, JSON_FENCE)
    case None => true
    case Some(k) => Find(s[k..], FENCE_LINE) == None
  }

  lemma BracedIs(response: string, i: nat, p: string)
    requires FindChar(response, {'{'}) == Some(i) && RFindChar(response, '}') == Some(i + |p| - 1) && p != ""
    requires i + |p| <= |response| && response[i..i + |p|] == p
    ensures Braced(response) == Some(p)
  {
    SliceIs(response, FindChar(response, {'{'}), RFindChar(response, '}'), i, p);
  }

  lemma SliceIs(s: string, first: Option<nat>, last: Option<nat>, i: nat, p: string)
    requires first == Some(i) && last == Some(i + |p| - 1) && p != ""
    requires i + |p| <= |s| && s[i..i + |p|] == p
    ensures SliceTo(s, first, last) == Some(p)
  {}

  /** Bare payloads: prose, the object, prose. */
  lemma ExtractsBare(pre: string, p: string, post: string)
    requires Leading(pre) && Payload(p) && Trailing(post)
    ensures var text := pre + p + post;
            && ExtractForScan(text) == p && ExtractForReview(text) == p && ExtractForRefactor(text) == Some(p)
  {
    TrimAround(pre, p, post);
    TrimmedParts(pre, post);
    TrimmedBare(TrimStart(pre), p, TrimEnd(post), pre + p + post);
    RefactorBare(pre, p, post);
  }

  predicate Unfenced(t: string) {
    Find(t, JSON_FENCE) == None && Find(t, FENCE) == None && !(JSON_FENCE <= t) && !(FENCE <= t)
  }

  lemma FencesAbsent(a: string, p: string, b: string)
    requires NoFence(a) && Payload(p) && NoFence(b)
    ensures Unfenced(a + p + b)
  {
    NoFenceAcross(a, p, b);
    NoFenceFound(a + p + b);
  }

  /** The two extractors that trim first. */
  lemma TrimmedBare(a: string, p: string, b: string, text: string)
    requires Leading(a) && Payload(p) && Trailing(b) && Trim(text) == a + p + b
    ensures ExtractForScan(text) == p && ExtractForReview(text) == p
  {
    FencesAbsent(a, p, b);
    BracesFindPayload(a, p, b);
  }

  lemma RefactorBare(pre: string, p: string, post: string)
    requires Leading(pre) && Payload(p) && Trailing(post)
    ensures ExtractForRefactor(pre + p + post) == Some(p)
  {
    FencesAbsent(pre, p, post);
    BracesFindPayload(pre, p, post);
    RefactorUnfenced(pre + p + post, |pre|, p);
  }

  lemma RefactorUnfenced(text: string, i: nat, p: string)
    requires NoFencedBlock(text) && p != ""
    requires FindChar(text, {'{'}) == Some(i) && RFindChar(text, '}') == Some(i + |p| - 1)
    requires i + |p| <= |text| && text[i..i + |p|] == p
    ensures ExtractForRefactor(text) == Some(p)
  {
    BracedIs(text, i, p);
  }

  /** A payload in a json fence, with prose around the fence, wherever the closing fence
      stands on its line.  The refactoring assistant fails exactly when one or two more
      backticks end the line of the closing fence. */
  lemma ExtractsFenced(pre: string, w1: string, p: string, w2: string, post: string)
    requires Leading(pre) && AllSpace(w1) && Payload(p) && AllSpace(w2) && Trailing(post)
    ensures var text := pre + JSON_FENCE + w1 + p + w2 + FENCE + post;
            && ExtractForScan(text) == p && ExtractForReview(text) == p
            && (ExtractForRefactor(text) == Some(p) <==> !StrayTicks(post))
  {
    ScanFenced(pre, w1, p, w2, post);
    ReviewFenced(pre, w1, p, w2, post);
    RefactorFenced(pre, w1, p, w2, post);
  }

  lemma ScanFenced(pre: string, w1: string, p: string, w2: string, post: string)
    requires Leading(pre) && AllSpace(w1) && Payload(p) && AllSpace(w2) && Trailing(post)
    ensures ExtractForScan(pre + JSON_FENCE + w1 + p + w2 + FENCE + post) == p
  {
    var a, b := TrimStart(pre), TrimEnd(post);
    var body := w1 + (p + w2 + FENCE + b);
    TrimFenced(pre, w1 + p + w2, post);
    FencedInner(pre, w1, p, w2, post);
    FencedBody(a, w1, p, w2, b);
    TrimmedParts(pre, post);
    FindsJsonFence(a, body);
    FindsOpener(w1, p, w2 + FENCE + b);
    UpToClosingFence(p, w2, b);
  }

  lemma FencedBody(a: string, w1: string, p: string, w2: string, b: string)
    ensures var body := w1 + (p + w2 + FENCE + b);
            && a + JSON_FENCE + (w1 + p + w2) + FENCE + b == a + JSON_FENCE + body
            && (a + JSON_FENCE + body)[|a| + 7..] == body
            && body == w1 + p + (w2 + FENCE + b)
            && body[|w1|..] == p + w2 + FENCE + b
  {}

  lemma TrimFenced(pre: string, inner: string, post: string)
    ensures Trim(pre + JSON_FENCE + inner + FENCE + post)
         == TrimStart(pre) + JSON_FENCE + inner + FENCE + TrimEnd(post)
  {
    var mid := JSON_FENCE + inner + FENCE;
    assert mid[0] == JSON_FENCE[0] && mid[|mid| - 1] == FENCE[2];
    TrimAround(pre, mid, post);
    FencedMiddle(pre, inner, post);
    FencedMiddle(TrimStart(pre), inner, TrimEnd(post));
  }

  lemma FencedMiddle(a: string, inner: string, b: string)
    ensures a + JSON_FENCE + inner + FENCE + b == a + (JSON_FENCE + inner + FENCE) + b
  {}

  lemma FencedInner(a: string, w1: string, p: string, w2: string, b: string)
    ensures a + JSON_FENCE + w1 + p + w2 + FENCE + b == a + JSON_FENCE + (w1 + p + w2) + FENCE + b
  {}

  lemma FindsOpener(w: string, p: string, b: string)
    requires AllSpace(w) && Payload(p)
    ensures FindChar(w + p + b, {'{', '['}) == Some(|w|)
  {
    FindCharAt(w, '{', p[1..] + b, {'{', '['});
    assert w + p + b == w + ['{'] + (p[1..] + b);
  }

  lemma UpToClosingFence(p: string, w: string, b: string)
    requires Payload(p) && AllSpace(w)
    ensures UpToFence(p + w + FENCE + b) == p
  {
    NoFenceAcross("", p, w);
    assert "" + p + w == p + w;
    var x := p + w;
    assert x[|x| - 1] != '`' by { if w != "" { assert x[|x| - 1] == w[|w| - 1]; } else { assert x == p; } }
    FindsClosingFence(x, b);
    assert (x + FENCE + b)[..|x|] == x;
    TrimAround("", p, w);
    TrimSpace(w);
    assert "" + p + "" == p;
  }

  lemma ReviewFenced(pre: string, w1: string, p: string, w2: string, post: string)
    requires Leading(pre) && AllSpace(w1) && Payload(p) && AllSpace(w2) && Trailing(post)
    ensures ExtractForReview(pre + JSON_FENCE + w1 + p + w2 + FENCE + post) == p
  {
    var l, r := pre + JSON_FENCE + w1, w2 + FENCE + post;
    assert pre + JSON_FENCE + w1 + p + w2 + FENCE + post == l + p + r;
    TrimAround(l, p, r);
    TrimmedParts(l, r);
    Assoc3(pre, JSON_FENCE, w1);
    TrimStartStops(pre, JSON_FENCE + w1);
    TrimEndStops(w2 + FENCE, post);
    ReviewAround(l + p + r, TrimStart(l), p, TrimEnd(r));
  }

  lemma ReviewAround(text: string, a: string, p: string, b: string)
    requires Payload(p) && Lacks(a, '{') && Lacks(b, '}') && |a| >= 7 && |b| >= 3
    requires Trim(text) == a + p + b
    ensures ExtractForReview(text) == p
  {
    StripsAround(a, p, b, 7);
    StripsAround(a, p, b, 3);
    BracesFindPayload(a, p, b);
  }

  /** Stripping a prefix before the payload and a fence after it leaves the payload. */
  lemma StripsAround(a: string, p: string, b: string, n: nat)
    requires Payload(p) && Lacks(a, '{') && Lacks(b, '}') && n <= |a| && |b| >= 3
    ensures BracedPart(Trim(StripSuffix((a + p + b)[n..], FENCE))) == p
  {
    var a2 := a[n..];
    var s := a2 + p + b;
    assert (a + p + b)[n..] == s;
    var b2 := if s[|s| - 3..] == FENCE then b[..|b| - 3] else b;
    assert StripSuffix(s, FENCE) == a2 + p + b2;
    TrimAround(a2, p, b2);
    TrimmedParts(a2, b2);
    BracesFindPayload(TrimStart(a2), p, TrimEnd(b2));
  }

  /** How many backticks a text begins with. */
  function Ticks(s: string): (n: nat)
    ensures n <= |s| && forall i | 0 <= i < n :: s[i] == '`'
  {
    if s != "" && s[0] == '`' then 1 + Ticks(s[1..]) else 0
  }

  /** Backticks and then the end of a line. */
  predicate EndsLine(s: string) { Ticks(s) < |s| && s[Ticks(s)] == '\n' }

  predicate StrayTicks(s: string) { Ticks(s) > 0 && EndsLine(s) }

  lemma RefactorFenced(pre: string, w1: string, p: string, w2: string, post: string)
    requires Leading(pre) && AllSpace(w1) && Payload(p) && AllSpace(w2) && Trailing(post)
    ensures ExtractForRefactor(pre + JSON_FENCE + w1 + p + w2 + FENCE + post) == Some(p) <==> !StrayTicks(post)
  {
    var inner := w1 + p + w2;
    InnerHasNoFence(w1, p, w2);
    FencedInner(pre, w1, p, w2, post);
    RefactorFinds(pre, inner, post);
    if EndsLine(post) {
      var n := Ticks(post);
      ShiftTicks(pre, inner, post, n);
      RefactorBetween(pre, inner + post[..n], post[n..]);
      TrimTicks(w1, p, w2, post[..n]);
    } else {
      RefactorUnclosed(pre, w1, p, w2, post);
    }
  }

  /** Backticks behind a fence might as well stand before it. */
  lemma ShiftTicks(pre: string, inner: string, post: string, n: nat)
    requires n <= |post| && forall i | 0 <= i < n :: post[i] == '`'
    ensures pre + JSON_FENCE + inner + FENCE + post == pre + JSON_FENCE + (inner + post[..n]) + FENCE + post[n..]
  {
    var t := post[..n];
    assert FENCE + t == t + FENCE;
    assert post == t + post[n..];
  }

  lemma TrimTicks(w1: string, p: string, w2: string, t: string)
    requires AllSpace(w1) && Payload(p) && AllSpace(w2) && forall i | 0 <= i < |t| :: t[i] == '`'
    ensures Trim(w1 + p + w2 + t) == p <==> t == ""
  {
    if t == "" {
      assert w1 + p + w2 + t == w1 + p + w2;
      TrimInner(w1, p, w2);
    } else {
      var x := p + w2 + t;
      assert w1 + p + w2 + t == w1 + x + "";
      assert x[0] == p[0] && x[|x| - 1] == t[|t| - 1];
      TrimAround(w1, x, "");
      TrimSpace(w1);
      assert "" + x + "" == x;
    }
  }

  /** The source panics exactly when there is no fenced block and the first opening brace
      stands behind the last closing one, and not right behind it. */
  lemma RefactorPanicsIff(response: string)
    ensures ExtractForRefactor(response) == None <==>
            var first, last := FindChar(response, {'{'}), RFindChar(response, '}');
            NoFencedBlock(response) && first.Some? && last.Some? && first.value > last.value + 1
  {
    var start := Find(response, JSON_FENCE);
    if start.Some? && Find(response[start.value..], FENCE_LINE).Some? {
      BlockIsOpened(response[start.value..], response, start.value);
    }
  }

  lemma BlockIsOpened(s: string, response: string, k: nat)
    requires Find(response, JSON_FENCE) == Some(k) && s == response[k..] && Find(s, FENCE_LINE).Some?
    ensures Find(s, FENCE_LINE).value >= 7
  {
    Found(response, JSON_FENCE);
    Found(s, FENCE_LINE);
    assert s[3] == 'j' && s[4] == 's' && s[5] == 'o' && s[6] == 'n';
  }

  lemma {:induction false} Found(s: string, pat: string)
    ensures Find(s, pat).Some? ==> pat <= s[Find(s, pat).value..]
    decreases |s|
  {
    if !(pat <= s) && s != "" { Found(s[1..], pat); }
    if Find(s, pat).Some? && Find(s, pat).value > 0 {
      assert s[Find(s, pat).value..] == s[1..][Find(s, pat).value - 1..];
    }
  }

  lemma RefactorPanics()
    ensures ExtractForRefactor("}x{") == None
  {
    var s := "}x{";
    assert s[1..] == "x{" && "x{"[1..] == "{" && "{"[1..] == "";
    assert s[..2] == "}x" && "}x"[..1] == "}";
    assert FindChar("{", {'{'}) == Some(0) && FindChar("x{", {'{'}) == Some(1);
    assert RFindChar("}", '}') == Some(0) && RFindChar("}x", '}') == Some(0);
    assert Find("", JSON_FENCE) == None && Find("{", JSON_FENCE) == None && Find("x{", JSON_FENCE) == None;
    RefactorPanicsIff(s);
  }

  lemma RefactorUnclosed(pre: string, w1: string, p: string, w2: string, post: string)
    requires Leading(pre) && AllSpace(w1) && Payload(p) && AllSpace(w2) && Trailing(post)
    requires var text := pre + JSON_FENCE + w1 + p + w2 + FENCE + post;
             Find(text, JSON_FENCE) == Some(|pre|) && Find(text[|pre|..], FENCE_LINE) == None
    ensures ExtractForRefactor(pre + JSON_FENCE + w1 + p + w2 + FENCE + post) == Some(p)
  {
    FencedBraces(pre, w1, p, w2, post);
    RefactorUnfenced(pre + JSON_FENCE + w1 + p + w2 + FENCE + post, |pre| + 7 + |w1|, p);
  }

  lemma RefactorBetween(pre: string, inner: string, post: string)
    requires var text := pre + JSON_FENCE + inner + FENCE + post;
             Find(text, JSON_FENCE) == Some(|pre|) && Find(text[|pre|..], FENCE_LINE) == Some(7 + |inner|)
    ensures ExtractForRefactor(pre + JSON_FENCE + inner + FENCE + post) == Some(Trim(inner))
  {
    var text := pre + JSON_FENCE + inner + FENCE + post;
    assert text == pre + JSON_FENCE + inner + (FENCE + post);
  }

  /** What the refactoring assistant's two searches find. */
  lemma RefactorFinds(pre: string, inner: string, post: string)
    requires NoFence(pre) && NoFence(inner) && inner != "" && inner[|inner| - 1] != '`' && NoFence(post)
    ensures var text := pre + JSON_FENCE + inner + FENCE + post;
            && Find(text, JSON_FENCE) == Some(|pre|)
            && Find(text[|pre|..], FENCE_LINE) == if EndsLine(post) then Some(7 + |inner| + Ticks(post)) else None
  {
    var text := pre + JSON_FENCE + inner + FENCE + post;
    var rest := JSON_FENCE + inner + FENCE + post;
    FindsJsonFence(pre, inner + FENCE + post);
    assert text == pre + JSON_FENCE + (inner + FENCE + post);
    assert text == pre + rest && text[|pre|..] == rest;
    if EndsLine(post) { FenceLineFirst(inner, post); } else { FenceLineAbsent(inner, post); }
  }

  lemma FencedBraces(pre: string, w1: string, p: string, w2: string, post: string)
    requires Leading(pre) && AllSpace(w1) && Payload(p) && AllSpace(w2) && Trailing(post)
    ensures var text := pre + JSON_FENCE + w1 + p + w2 + FENCE + post;
            var n := |pre| + 7 + |w1|;
            && FindChar(text, {'{'}) == Some(n) && RFindChar(text, '}') == Some(n + |p| - 1)
            && text[n..n + |p|] == p
  {
    var l, r := pre + JSON_FENCE + w1, w2 + FENCE + post;
    assert pre + JSON_FENCE + w1 + p + w2 + FENCE + post == l + p + r;
    BracesFindPayload(l, p, r);
  }

  lemma TrimInner(w1: string, p: string, w2: string)
    requires AllSpace(w1) && Payload(p) && AllSpace(w2)
    ensures Trim(w1 + p + w2) == p
  {
    TrimAround(w1, p, w2);
    TrimSpace(w1);
    TrimSpace(w2);
    assert "" + p + "" == p;
  }

  lemma InnerHasNoFence(w1: string, p: string, w2: string)
    requires AllSpace(w1) && Payload(p) && AllSpace(w2)
    ensures NoFence(w1 + p + w2)
    ensures var x := w1 + p + w2; x[|x| - 1] != '`'
  {
    NoFenceAcross(w1, p, w2);
    var x := w1 + p + w2;
    if w2 == "" { assert x[|x| - 1] == p[|p| - 1]; } else { assert x[|x| - 1] == w2[|w2| - 1]; }
  }

  /** Behind the opening fence no fence line starts before the closing one. */
  lemma NoEarlyFenceLine(inner: string, b: string, i: nat)
    requires NoFence(inner) && inner != "" && inner[|inner| - 1] != '`'
    requires i < 7 + |inner|
    ensures !(FENCE_LINE <= (JSON_FENCE + inner + FENCE + b)[i..])
  {
    var s := JSON_FENCE + inner + FENCE + b;
    assert s[3] == 'j' && s[4] == 's' && s[5] == 'o' && s[6] == 'n';
    assert forall k | 0 <= k < |inner| :: s[7 + k] == inner[k];
    assert i >= 7 && i + 3 <= |s| ==> s[i] == inner[i - 7];
    if i >= 7 && i + 3 <= |s| { FenceInInner(s, inner, i); }
  }

  lemma FenceInInner(s: string, inner: string, i: nat)
    requires NoFence(inner) && inner != "" && inner[|inner| - 1] != '`'
    requires 7 + |inner| <= |s| && forall k | 0 <= k < |inner| :: s[7 + k] == inner[k]
    requires 7 <= i < 7 + |inner| && i + 3 <= |s|
    ensures !FenceAt(s, i)
  {
    var k := i - 7;
    assert s[i] == inner[k];
    if k + 3 <= |inner| { assert FenceAt(s, i) <==> FenceAt(inner, k); }
    else if k + 2 == |inner| { assert s[i + 1] == inner[k + 1]; }
  }

  predicate FenceLineAt(s: string, i: nat) { i + 4 <= |s| && FenceAt(s, i) && s[i + 3] == '\n' }

  /** From the closing fence on, a fence line starts only where the backticks before the
      end of the line leave three. */
  lemma FenceLineBehind(a: string, post: string, i: nat)
    requires NoFence(post) && |a| <= i <= |a| + 3 + |post|
    ensures FENCE_LINE <= (a + FENCE + post)[i..] <==> EndsLine(post) && i == |a| + Ticks(post)
  {
    BehindFence(a + FENCE + post, |a|, post, i - |a|);
  }

  lemma BehindFence(s: string, n: nat, post: string, q: nat)
    requires NoFence(post) && q <= 3 + |post| && n + 3 <= |s|
    requires s[n..n + 3] == FENCE && s[n + 3..] == post
    ensures FENCE_LINE <= s[n + q..] <==> EndsLine(post) && q == Ticks(post)
  {
    assert s[n] == s[n..n + 3][0] && s[n + 1] == s[n..n + 3][1] && s[n + 2] == s[n..n + 3][2];
    assert forall k | n + 3 <= k < |s| :: s[k] == post[k - n - 3];
    TicksEnd(post);
    if Ticks(post) >= 3 { assert FenceAt(post, 0); }
    if FenceLineAt(s, n + q) { LineBehindFence(s, n, post, q); }
  }

  lemma LineBehindFence(s: string, n: nat, post: string, q: nat)
    requires NoFence(post) && q < |post| && |s| == n + 3 + |post|
    requires forall k | n + 3 <= k < |s| :: s[k] == post[k - n - 3]
    requires FenceLineAt(s, n + q)
    ensures EndsLine(post) && q == Ticks(post)
  {
    assert post[q] == s[n + 3 + q] == '\n';
    assert forall i | 0 <= i < q && i + 3 >= q :: s[n + 3 + i] == post[i];
    if q >= 3 { assert FenceAt(post, q - 3); }
    TicksTo(post, q);
  }

  lemma {:induction false} TicksEnd(s: string)
    ensures Ticks(s) < |s| ==> s[Ticks(s)] != '`'
  {
    if s != "" && s[0] == '`' { TicksEnd(s[1..]); }
  }

  lemma {:induction false} TicksTo(s: string, q: nat)
    requires q < |s| && s[q] != '`' && forall i | 0 <= i < q :: s[i] == '`'
    ensures Ticks(s) == q
  {
    if q > 0 { TicksTo(s[1..], q - 1); }
  }

  lemma FenceLineFirst(inner: string, post: string)
    requires NoFence(inner) && inner != "" && inner[|inner| - 1] != '`' && NoFence(post) && EndsLine(post)
    ensures Find(JSON_FENCE + inner + FENCE + post, FENCE_LINE) == Some(7 + |inner| + Ticks(post))
  {
    var s, m := JSON_FENCE + inner + FENCE + post, 7 + |inner| + Ticks(post);
    forall i | 0 <= i < m
      ensures !(FENCE_LINE <= s[i..])
    {
      if i < 7 + |inner| { NoEarlyFenceLine(inner, post, i); } else { FenceLineBehind(JSON_FENCE + inner, post, i); }
    }
    FenceLineBehind(JSON_FENCE + inner, post, m);
    var a, b := s[..m], s[m + 4..];
    assert s[m..] == FENCE_LINE + b;
    assert s == a + FENCE_LINE + b;
    FindFirst(a, FENCE_LINE, b);
  }

  lemma FenceLineAbsent(inner: string, post: string)
    requires NoFence(inner) && inner != "" && inner[|inner| - 1] != '`' && NoFence(post) && !EndsLine(post)
    ensures Find(JSON_FENCE + inner + FENCE + post, FENCE_LINE) == None
  {
    var s := JSON_FENCE + inner + FENCE + post;
    forall i | 0 <= i <= |s|
      ensures !(FENCE_LINE <= s[i..])
    {
      if i < 7 + |inner| { NoEarlyFenceLine(inner, post, i); } else { FenceLineBehind(JSON_FENCE + inner, post, i); }
    }
    FindNone(s, FENCE_LINE);
  }
}
