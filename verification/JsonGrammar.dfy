/** JSON as sections 2 to 7 of RFC 8259 define it, three times over:
    a parsed tree, a concrete syntax tree that spells out every JSON text,
    and a recursive-descent reader. `ReadsBack` ties the three together. */
module JsonGrammar {
  import opened Wrappers

  // ---------------------------------------------------------------- trees

  datatype Kind = Array | Object

  /** A parsed value.  A string is the sequence of its code points, one per
      unescaped character and one per escape; an array element has key []. */
  datatype Json =
    | JScalar(text: string)
    | JString(units: seq<int>)
    | JBox(kind: Kind, fields: seq<Field>)

  datatype Field = Field(key: seq<int>, value: Json)

  function Opener(k: Kind): char { if k == Array then '[' else '{' }

  function Closer(k: Kind): char { if k == Array then ']' else '}' }

  // ---------------------------------------------------------- lexical rules

  predicate IsWs(c: char) { c == ' ' || c == '\t' || c == '\n' || c == '\r' }

  predicate AllWs(s: string) { forall i | 0 <= i < |s| :: IsWs(s[i]) }

  predicate IsDigit(c: char) { '0' <= c <= '9' }

  /** The characters that literals and numbers are made of. */
  predicate IsScalarChar(c: char) {
    IsDigit(c) || 'a' <= c <= 'z' || c == 'E' || c == '+' || c == '-' || c == '.'
  }

  predicate AllScalarChars(s: string) { forall i | 0 <= i < |s| :: IsScalarChar(s[i]) }

  /** Section 6, as an automaton. */
  datatype NumState = Start | Minus | Zero | Int | Dot | Frac | Exp | ExpSign | ExpInt | Bad

  function NumStep(q: NumState, c: char): NumState {
    match q
    case Start => if c == '-' then Minus else if c == '0' then Zero else if IsDigit(c) then Int else Bad
    case Minus => if c == '0' then Zero else if IsDigit(c) then Int else Bad
    case Zero => if c == '.' then Dot else if c == 'e' || c == 'E' then Exp else Bad
    case Int => if IsDigit(c) then Int else if c == '.' then Dot else if c == 'e' || c == 'E' then Exp else Bad
    case Dot => if IsDigit(c) then Frac else Bad
    case Frac => if IsDigit(c) then Frac else if c == 'e' || c == 'E' then Exp else Bad
    case Exp => if c == '+' || c == '-' then ExpSign else if IsDigit(c) then ExpInt else Bad
    case ExpSign => if IsDigit(c) then ExpInt else Bad
    case ExpInt => if IsDigit(c) then ExpInt else Bad
    case Bad => Bad
  }

  function NumRun(q: NumState, t: string): NumState
    decreases |t|
  {
    if t == "" then q else NumRun(NumStep(q, t[0]), t[1..])
  }

  predicate IsNumber(t: string) {
    var q := NumRun(Start, t);
    q.Zero? || q.Int? || q.Frac? || q.ExpInt?
  }

  /** Section 3's three literals, or a number. */
  predicate IsScalar(t: string) {
    t != "" && AllScalarChars(t) && (t == "null" || t == "true" || t == "false" || IsNumber(t))
  }

  // ------------------------------------------------------- strings (section 7)

  /** One `char` production: an unescaped character, a two-character escape, a
      \uXXXX escape, or two of them for a surrogate pair.  A surrogate on its own, which
      the grammar allows and section 8.2 warns of, is not a text for the source's parser. */
  datatype Elem = Plain(c: char) | Short(e: char) | Hex(h: string) | Pair(hi: string, lo: string)

  predicate IsShort(c: char) {
    c == '"' || c == '\\' || c == '/' || c == 'b' || c == 'f' || c == 'n' || c == 'r' || c == 't'
  }

  function ShortValue(c: char): int
    requires IsShort(c)
  {
    match c
    case 'b' => 8
    case 'f' => 12
    case 'n' => 10
    case 'r' => 13
    case 't' => 9
    case _ => c as int
  }

  predicate IsHexDigit(c: char) { IsDigit(c) || 'a' <= c <= 'f' || 'A' <= c <= 'F' }

  predicate AllHex(s: string) { forall i | 0 <= i < |s| :: IsHexDigit(s[i]) }

  function HexDigitValue(c: char): int {
    if IsDigit(c) then c as int - '0' as int
    else if 'a' <= c <= 'f' then c as int - 'a' as int + 10
    else c as int - 'A' as int + 10
  }

  function HexValue(h: string): int {
    if h == "" then 0 else 16 * HexValue(h[..|h| - 1]) + HexDigitValue(h[|h| - 1])
  }

  predicate IsUnit(h: string) { |h| == 4 && AllHex(h) }

  /** The halves of a surrogate pair, by their first two digits. */
  predicate IsHigh(h: string) { IsUnit(h) && HexDigitValue(h[0]) == 0xD && 0x8 <= HexDigitValue(h[1]) <= 0xB }

  predicate IsLow(h: string) { IsUnit(h) && HexDigitValue(h[0]) == 0xD && 0xC <= HexDigitValue(h[1]) }

  lemma FourDigits(h: string)
    requires IsUnit(h)
    ensures HexValue(h) == 4096 * HexDigitValue(h[0]) + 256 * HexDigitValue(h[1])
                           + 16 * HexDigitValue(h[2]) + HexDigitValue(h[3])
  {
    assert h[..0] + [h[0]] == h[..1] && h[..1] + [h[1]] == h[..2] && h[..2] + [h[2]] == h[..3] && h[..3] + [h[3]] == h;
    HexSnoc(h[..0], h[0]);
    HexSnoc(h[..1], h[1]);
    HexSnoc(h[..2], h[2]);
    HexSnoc(h[..3], h[3]);
  }

  lemma HexSnoc(h: string, c: char)
    ensures HexValue(h + [c]) == 16 * HexValue(h) + HexDigitValue(c)
  {
    assert (h + [c])[..|h|] == h;
  }

  /** Those digits are the ones of the surrogate ranges. */
  lemma SurrogateValues(h: string)
    requires IsUnit(h)
    ensures IsHigh(h) <==> 0xD800 <= HexValue(h) <= 0xDBFF
    ensures IsLow(h) <==> 0xDC00 <= HexValue(h) <= 0xDFFF
  {
    FourDigits(h);
    SurrogateDigits(HexDigitValue(h[0]), HexDigitValue(h[1]), HexDigitValue(h[2]), HexDigitValue(h[3]));
  }

  lemma SurrogateDigits(a: int, b: int, c: int, d: int)
    requires 0 <= a < 16 && 0 <= b < 16 && 0 <= c < 16 && 0 <= d < 16
    ensures var v := 4096 * a + 256 * b + 16 * c + d;
            && (0xD800 <= v <= 0xDBFF <==> a == 0xD && 0x8 <= b <= 0xB)
            && (0xDC00 <= v <= 0xDFFF <==> a == 0xD && 0xC <= b)
  {}

  function PairValue(hi: string, lo: string): int {
    0x10000 + 0x400 * (HexValue(hi) - 0xD800) + (HexValue(lo) - 0xDC00)
  }

  predicate ElemOk(e: Elem) {
    match e
    case Plain(c) => c != '"' && c != '\\' && ' ' <= c
    case Short(c) => IsShort(c)
    case Hex(h) => IsUnit(h) && !IsHigh(h) && !IsLow(h)
    case Pair(hi, lo) => IsHigh(hi) && IsLow(lo)
  }

  predicate ElemsOk(es: seq<Elem>) { forall i | 0 <= i < |es| :: ElemOk(es[i]) }

  function ElemText(e: Elem): string {
    match e
    case Plain(c) => [c]
    case Short(c) => ['\\', c]
    case Hex(h) => ['\\', 'u'] + h
    case Pair(hi, lo) => ['\\', 'u'] + hi + (['\\', 'u'] + lo)
  }

  function ElemValue(e: Elem): int
    requires ElemOk(e)
  {
    match e
    case Plain(c) => c as int
    case Short(c) => ShortValue(c)
    case Hex(h) => HexValue(h)
    case Pair(hi, lo) => PairValue(hi, lo)
  }

  function ElemsText(es: seq<Elem>): string {
    if es == [] then "" else ElemText(es[0]) + ElemsText(es[1..])
  }

  function ElemsValue(es: seq<Elem>): seq<int>
    requires ElemsOk(es)
  {
    if es == [] then [] else [ElemValue(es[0])] + ElemsValue(es[1..])
  }

  // --------------------------------------------------- concrete syntax trees

  /** What precedes a value inside its container: white space, and for an
      object member also the name and the colon. */
  datatype Lead =
    | Bare(pre: string)
    | Named(pre: string, key: seq<Elem>, gap1: string, gap2: string)

  datatype Entry = Entry(lead: Lead, value: Value, post: string)

  datatype Entries = Nil | Cons(head: Entry, tail: Entries)

  datatype Value =
    | VScalar(text: string)
    | VString(elems: seq<Elem>)
    | VBox(kind: Kind, pad: string, entries: Entries)

  predicate LeadOk(k: Kind, l: Lead) {
    match l
    case Bare(pre) => k == Array && AllWs(pre)
    case Named(pre, key, g1, g2) => k == Object && AllWs(pre) && ElemsOk(key) && AllWs(g1) && AllWs(g2)
  }

  predicate ValueOk(v: Value)
    decreases v
  {
    match v
    case VScalar(t) => IsScalar(t)
    case VString(es) => ElemsOk(es)
    case VBox(k, pad, es) => AllWs(pad) && EntriesOk(k, es)
  }

  predicate EntriesOk(k: Kind, es: Entries)
    decreases es
  {
    match es
    case Nil => true
    case Cons(e, rest) => LeadOk(k, e.lead) && ValueOk(e.value) && AllWs(e.post) && EntriesOk(k, rest)
  }

  function QuotedText(es: seq<Elem>): string { ['"'] + ElemsText(es) + ['"'] }

  function LeadText(l: Lead): string {
    match l
    case Bare(pre) => pre
    case Named(pre, key, g1, g2) => pre + QuotedText(key) + g1 + [':'] + g2
  }

  function Text(v: Value): string {
    match v
    case VScalar(t) => t
    case VString(es) => QuotedText(es)
    case VBox(k, pad, es) =>
      [Opener(k)] + (if es.Nil? then pad else EntriesText(es)) + [Closer(k)]
  }

  function EntriesText(es: Entries): string {
    match es
    case Nil => ""
    case Cons(e, rest) =>
      LeadText(e.lead) + Text(e.value) + e.post + (if rest.Nil? then "" else [','] + EntriesText(rest))
  }

  function LeadKey(k: Kind, l: Lead): seq<int>
    requires LeadOk(k, l)
  {
    match l
    case Bare(_) => []
    case Named(_, key, _, _) => ElemsValue(key)
  }

  function Tree(v: Value): Json
    requires ValueOk(v)
    decreases v
  {
    match v
    case VScalar(t) => JScalar(t)
    case VString(es) => JString(ElemsValue(es))
    case VBox(k, _, es) => JBox(k, EntriesTree(k, es))
  }

  function EntriesTree(k: Kind, es: Entries): seq<Field>
    requires EntriesOk(k, es)
    decreases es
  {
    match es
    case Nil => []
    case Cons(e, rest) => [Field(LeadKey(k, e.lead), Tree(e.value))] + EntriesTree(k, rest)
  }

  // ------------------------------------------------------------------ reader

  datatype Parsed<+T> = Fail | Ok(value: T, rest: string)

  function SkipWs(s: string): (r: string)
    ensures |r| <= |s|
  {
    if s != "" && IsWs(s[0]) then SkipWs(s[1..]) else s
  }

  function ScalarRun(s: string): (n: nat)
    ensures n <= |s|
  {
    if s != "" && IsScalarChar(s[0]) then 1 + ScalarRun(s[1..]) else 0
  }

  predicate UnitAt(s: string) { |s| >= 6 && s[0] == '\\' && s[1] == 'u' && IsUnit(s[2..6]) }

  predicate PairAt(s: string) { |s| >= 12 && UnitAt(s) && IsHigh(s[2..6]) && UnitAt(s[6..]) && IsLow(s[8..12]) }

  /** Reads a string whose opening quote has been consumed. */
  function ParseString(s: string): (p: Parsed<seq<int>>)
    ensures p.Ok? ==> |p.rest| < |s|
  {
    if s == "" then Fail
    else if s[0] == '"' then Ok([], s[1..])
    else if s[0] == '\\' then
      if |s| < 2 then Fail
      else if IsShort(s[1]) then Prepend(ShortValue(s[1]), ParseString(s[2..]))
      else if PairAt(s) then Prepend(PairValue(s[2..6], s[8..12]), ParseString(s[12..]))
      else if UnitAt(s) && !IsHigh(s[2..6]) && !IsLow(s[2..6]) then Prepend(HexValue(s[2..6]), ParseString(s[6..]))
      else Fail
    else if s[0] < ' ' then Fail
    else Prepend(s[0] as int, ParseString(s[1..]))
  }

  function Prepend<T>(x: T, p: Parsed<seq<T>>): Parsed<seq<T>> {
    match p
    case Fail => Fail
    case Ok(xs, r) => Ok([x] + xs, r)
  }

  function ParseLead(k: Kind, s: string): (p: Parsed<seq<int>>)
    ensures p.Ok? ==> |p.rest| <= |s|
  {
    var r := SkipWs(s);
    if k == Array then Ok([], r)
    else if r == "" || r[0] != '"' then Fail
    else
      match ParseString(r[1..])
      case Fail => Fail
      case Ok(key, r2) =>
        var r3 := SkipWs(r2);
        if r3 == "" || r3[0] != ':' then Fail else Ok(key, SkipWs(r3[1..]))
  }

  function ParseValue(s: string): (p: Parsed<Json>)
    ensures p.Ok? ==> |p.rest| < |s|
    decreases |s|, 0
  {
    if s == "" then Fail
    else if s[0] == '"' then
      match ParseString(s[1..])
      case Fail => Fail
      case Ok(u, r) => Ok(JString(u), r)
    else if s[0] == '[' || s[0] == '{' then
      ParseBox(if s[0] == '[' then Array else Object, s[1..])
    else
      var n := ScalarRun(s);
      if IsScalar(s[..n]) then Ok(JScalar(s[..n]), s[n..]) else Fail
  }

  /** Reads a container whose opening delimiter has been consumed. */
  function ParseBox(k: Kind, s: string): (p: Parsed<Json>)
    ensures p.Ok? ==> |p.rest| < |s|
    decreases |s|, 3
  {
    var r := SkipWs(s);
    if r != "" && r[0] == Closer(k) then Ok(JBox(k, []), r[1..])
    else
      match ParseEntries(k, s)
      case Fail => Fail
      case Ok(fs, r2) => Ok(JBox(k, fs), r2)
  }

  function ParseEntries(k: Kind, s: string): (p: Parsed<seq<Field>>)
    ensures p.Ok? ==> |p.rest| < |s|
    decreases |s|, 2
  {
    match ParseEntry(k, s)
    case Fail => Fail
    case Ok(f, r) =>
      if r == "" then Fail
      else if r[0] == ',' then Prepend(f, ParseEntries(k, r[1..]))
      else if r[0] == Closer(k) then Ok([f], r[1..])
      else Fail
  }

  /** A value with what precedes it, and the white space that follows it. */
  function ParseEntry(k: Kind, s: string): (p: Parsed<Field>)
    ensures p.Ok? ==> |p.rest| < |s|
    decreases |s|, 1
  {
    match ParseLead(k, s)
    case Fail => Fail
    case Ok(key, r) =>
      match ParseValue(r)
      case Fail => Fail
      case Ok(v, r2) => Ok(Field(key, v), SkipWs(r2))
  }

  /** A whole JSON text: white space, one value, white space. */
  function Parse(s: string): Option<Json> {
    match ParseValue(SkipWs(s))
    case Fail => None
    case Ok(v, r) => if SkipWs(r) == "" then Some(v) else None
  }

  // Concatenation is associative; the solver is quicker when told.

  lemma Assoc3(a: string, b: string, c: string)
    ensures a + b + c == a + (b + c)
  {}

  lemma Assoc4(a: string, b: string, c: string, d: string)
    ensures a + b + c + d == a + (b + c + d)
  {}

  // ------------------------------------------------- the reader on whole texts

  /** No literal or number can run on into `s`. */
  predicate Stops(s: string) { s == "" || !IsScalarChar(s[0]) }

  lemma {:induction false} SkipsWs(w: string, t: string)
    requires AllWs(w)
    ensures SkipWs(w + t) == SkipWs(t)
  {
    if w == "" {
      assert w + t == t;
    } else {
      assert (w + t)[1..] == w[1..] + t;
      SkipsWs(w[1..], t);
    }
  }

  lemma {:induction false} RunsToStop(t: string, rest: string)
    requires AllScalarChars(t) && Stops(rest)
    ensures ScalarRun(t + rest) == |t|
  {
    if t == "" {
      assert t + rest == rest;
    } else {
      assert (t + rest)[1..] == t[1..] + rest;
      RunsToStop(t[1..], rest);
    }
  }

  /** Reading one string element off the front. */
  lemma ReadsElem(e: Elem, rest: string)
    requires ElemOk(e)
    ensures ParseString(ElemText(e) + rest) == Prepend(ElemValue(e), ParseString(rest))
  {
    match e
    case Plain(c) =>
    case Short(c) =>
    case Hex(h) =>
      var s := ElemText(e) + rest;
      assert s[2..6] == h && s[6..] == rest;
    case Pair(hi, lo) =>
      var s := ElemText(e) + rest;
      PairText(hi, lo, rest);
  }

  lemma PairText(hi: string, lo: string, rest: string)
    requires IsUnit(hi) && IsUnit(lo)
    ensures var s := ElemText(Pair(hi, lo)) + rest;
            UnitAt(s) && UnitAt(s[6..]) && s[2..6] == hi && s[8..12] == lo && s[12..] == rest
  {
    var s := ElemText(Pair(hi, lo)) + rest;
    assert s[2..6] == hi && s[6..][2..6] == lo;
  }

  lemma PrependFirst(x: int, a: seq<int>, b: seq<int>)
    ensures [x] + a + b == [x] + (a + b)
  {}

  lemma {:induction false} ReadsElems(es: seq<Elem>, rest: string)
    requires ElemsOk(es)
    ensures ParseString(ElemsText(es) + rest) ==
            match ParseString(rest)
            case Fail => Fail
            case Ok(u, r) => Ok(ElemsValue(es) + u, r)
  {
    if es == [] {
      assert ElemsText(es) + rest == rest;
      if ParseString(rest).Ok? { assert [] + ParseString(rest).value == ParseString(rest).value; }
    } else {
      Assoc3(ElemText(es[0]), ElemsText(es[1..]), rest);
      ReadsElem(es[0], ElemsText(es[1..]) + rest);
      ReadsElems(es[1..], rest);
      if ParseString(rest).Ok? { PrependFirst(ElemValue(es[0]), ElemsValue(es[1..]), ParseString(rest).value); }
    }
  }

  lemma ReadsQuoted(es: seq<Elem>, rest: string)
    requires ElemsOk(es)
    ensures QuotedText(es) + rest != "" && (QuotedText(es) + rest)[0] == '"'
    ensures ParseString((QuotedText(es) + rest)[1..]) == Ok(ElemsValue(es), rest)
  {
    var s := QuotedText(es) + rest;
    assert s[1..] == ElemsText(es) + (['"'] + rest);
    assert (['"'] + rest)[1..] == rest;
    ReadsElems(es, ['"'] + rest);
    assert ElemsValue(es) + [] == ElemsValue(es);
  }

  lemma ReadsLead(k: Kind, l: Lead, rest: string)
    requires LeadOk(k, l)
    requires SkipWs(rest) == rest
    ensures ParseLead(k, LeadText(l) + rest) == Ok(LeadKey(k, l), rest)
  {
    match l
    case Bare(pre) => SkipsWs(pre, rest);
    case Named(pre, key, g1, g2) =>
      var tail := g1 + ([':'] + (g2 + rest));
      assert LeadText(l) + rest == pre + (QuotedText(key) + tail);
      SkipsWs(pre, QuotedText(key) + tail);
      ReadsQuoted(key, tail);
      SkipsWs(g1, [':'] + (g2 + rest));
      assert ([':'] + (g2 + rest))[1..] == g2 + rest;
      SkipsWs(g2, rest);
  }

  /** A value's text starts with a character that is neither white space nor a closer. */
  lemma TextStarts(v: Value, rest: string)
    requires ValueOk(v)
    ensures Text(v) != "" && SkipWs(Text(v) + rest) == Text(v) + rest
    ensures (Text(v) + rest)[0] != ']' && (Text(v) + rest)[0] != '}'
  {}

  lemma {:induction false} ReadsValue(v: Value, rest: string)
    requires ValueOk(v)
    requires v.VScalar? ==> Stops(rest)
    ensures ParseValue(Text(v) + rest) == Ok(Tree(v), rest)
    decreases v
  {
    var s := Text(v) + rest;
    match v
    case VScalar(t) =>
      RunsToStop(t, rest);
      assert s[..|t|] == t && s[|t|..] == rest;
    case VString(es) => ReadsQuoted(es, rest);
    case VBox(k, pad, es) =>
      var inner := (if es.Nil? then pad else EntriesText(es)) + ([Closer(k)] + rest);
      assert s[1..] == inner;
      ReadsBox(k, pad, es, rest);
  }

  lemma {:induction false} ReadsBox(k: Kind, pad: string, es: Entries, rest: string)
    requires AllWs(pad) && EntriesOk(k, es)
    ensures ParseBox(k, (if es.Nil? then pad else EntriesText(es)) + ([Closer(k)] + rest))
         == Ok(JBox(k, EntriesTree(k, es)), rest)
    decreases es, 1
  {
    var end := [Closer(k)] + rest;
    if es.Nil? {
      SkipsWs(pad, end);
      assert end[1..] == rest;
    } else {
      var e := es.head;
      var after := (if es.tail.Nil? then "" else [','] + EntriesText(es.tail)) + end;
      assert EntriesText(es) + end == LeadText(e.lead) + Text(e.value) + e.post + after;
      NotClosed(k, e, after);
      ReadsEntries(k, es, rest);
    }
  }

  /** An entry does not look like the end of its container. */
  lemma NotClosed(k: Kind, e: Entry, rest: string)
    requires LeadOk(k, e.lead) && ValueOk(e.value)
    ensures var r := SkipWs(LeadText(e.lead) + Text(e.value) + e.post + rest);
            r != "" && r[0] != Closer(k)
  {
    var r := Text(e.value) + (e.post + rest);
    TextStarts(e.value, e.post + rest);
    Assoc4(LeadText(e.lead), Text(e.value), e.post, rest);
    Assoc3(Text(e.value), e.post, rest);
    LeadNotClosed(k, e.lead, r);
  }

  lemma LeadNotClosed(k: Kind, l: Lead, rest: string)
    requires LeadOk(k, l)
    requires SkipWs(rest) == rest && rest != "" && rest[0] != Closer(k)
    ensures var r := SkipWs(LeadText(l) + rest); r != "" && r[0] != Closer(k)
  {
    match l
    case Bare(pre) => SkipsWs(pre, rest);
    case Named(pre, key, g1, g2) =>
      var tail := ['"'] + (ElemsText(key) + ['"'] + g1 + [':'] + g2 + rest);
      assert LeadText(l) + rest == pre + tail;
      SkipsWs(pre, tail);
  }

  lemma {:induction false} ReadsEntry(k: Kind, e: Entry, rest: string)
    requires LeadOk(k, e.lead) && ValueOk(e.value) && AllWs(e.post)
    requires rest != "" && !IsWs(rest[0]) && !IsScalarChar(rest[0])
    ensures ParseEntry(k, LeadText(e.lead) + Text(e.value) + e.post + rest)
         == Ok(Field(LeadKey(k, e.lead), Tree(e.value)), rest)
    decreases e, 1
  {
    var r := Text(e.value) + (e.post + rest);
    Assoc4(LeadText(e.lead), Text(e.value), e.post, rest);
    Assoc3(Text(e.value), e.post, rest);
    TextStarts(e.value, e.post + rest);
    ReadsLead(k, e.lead, r);
    StopsBehind(e.post, rest);
    ReadsValue(e.value, e.post + rest);
    SkipsWs(e.post, rest);
  }

  lemma StopsBehind(post: string, rest: string)
    requires AllWs(post) && rest != "" && !IsWs(rest[0]) && !IsScalarChar(rest[0])
    ensures Stops(post + rest) && SkipWs(rest) == rest
  {}

  lemma EntriesSplit(es: Entries, rest: string)
    requires es.Cons? && es.tail.Cons?
    ensures EntriesText(es) + rest
         == LeadText(es.head.lead) + Text(es.head.value) + es.head.post + ([','] + (EntriesText(es.tail) + rest))
  {}

  lemma {:induction false} ReadsEntries(k: Kind, es: Entries, rest: string)
    requires EntriesOk(k, es) && es.Cons?
    ensures ParseEntries(k, EntriesText(es) + ([Closer(k)] + rest)) == Ok(EntriesTree(k, es), rest)
    decreases es, 0
  {
    var e, tail := es.head, es.tail;
    if tail.Nil? {
      var after := [Closer(k)] + rest;
      assert EntriesText(es) == LeadText(e.lead) + Text(e.value) + e.post;
      ReadsEntry(k, e, after);
      assert after[1..] == rest;
      assert EntriesTree(k, es) == [Field(LeadKey(k, e.lead), Tree(e.value))];
    } else {
      var inner := EntriesText(tail) + ([Closer(k)] + rest);
      var after := [','] + inner;
      EntriesSplit(es, [Closer(k)] + rest);
      ReadsEntry(k, e, after);
      assert after[1..] == inner;
      ReadsEntries(k, tail, rest);
    }
  }

  /** Every JSON text, whatever its white space and escapes, reads back as its
      tree: the reader accepts all of the grammar, and the grammar is unambiguous. */
  lemma ReadsBack(before: string, v: Value, after: string)
    requires AllWs(before) && ValueOk(v) && AllWs(after)
    ensures Parse(before + Text(v) + after) == Some(Tree(v))
  {
    assert before + Text(v) + after == before + (Text(v) + after);
    SkipsWs(before, Text(v) + after);
    TextStarts(v, after);
    ReadsValue(v, after);
    assert after + "" == after;
    SkipsWs(after, "");
  }
}
