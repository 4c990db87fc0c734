/** The reader accepts nothing but JSON texts, so that with `JsonGrammar.ReadsBack` it
    decides the grammar of RFC 8259 and computes its trees. */
module JsonReader {
  import opened Wrappers
  import opened JsonGrammar

  ghost predicate IsText(s: string, before: string, v: Value, after: string) {
    AllWs(before) && ValueOk(v) && AllWs(after) && s == before + Text(v) + after
  }

  /** s is a JSON text with tree t. */
  ghost predicate Denotes(s: string, t: Json) {
    exists before, v, after :: IsText(s, before, v, after) && Tree(v) == t
  }

  lemma {:induction false} SkipsOff(s: string) returns (w: string)
    ensures AllWs(w) && s == w + SkipWs(s)
  {
    if s != "" && IsWs(s[0]) {
      var w1 := SkipsOff(s[1..]);
      w := [s[0]] + w1;
      Behind(s[0], s);
    } else {
      w := "";
    }
  }

  /** The first element of a string that reads on. */
  lemma FirstElem(s: string) returns (e: Elem, tail: string)
    requires ParseString(s).Ok? && s[0] != '"'
    ensures ElemOk(e) && s == ElemText(e) + tail && |tail| < |s|
    ensures ParseString(s) == Prepend(ElemValue(e), ParseString(tail)) && ParseString(tail).Ok?
  {
    if s[0] != '\\' {
      e, tail := Plain(s[0]), s[1..];
    } else if IsShort(s[1]) {
      e, tail := Short(s[1]), s[2..];
    } else if PairAt(s) {
      e, tail := Pair(s[2..6], s[8..12]), s[12..];
    } else {
      e, tail := Hex(s[2..6]), s[6..];
    }
  }

  lemma {:induction false} StringSound(s: string) returns (es: seq<Elem>)
    requires ParseString(s).Ok?
    ensures ElemsOk(es) && ElemsValue(es) == ParseString(s).value
    ensures s == ElemsText(es) + (['"'] + ParseString(s).rest)
    decreases |s|
  {
    if s[0] == '"' {
      es := [];
    } else {
      var e, tail := FirstElem(s);
      var more := StringSound(tail);
      es := [e] + more;
      assert es[1..] == more;
      Assoc3(ElemText(e), ElemsText(more), ['"'] + ParseString(tail).rest);
    }
  }

  lemma LeadSound(k: Kind, s: string) returns (l: Lead)
    requires ParseLead(k, s).Ok?
    ensures LeadOk(k, l) && LeadKey(k, l) == ParseLead(k, s).value && s == LeadText(l) + ParseLead(k, s).rest
  {
    var pre := SkipsOff(s);
    if k == Array {
      l := Bare(pre);
    } else {
      var r := SkipWs(s);
      var key := StringSound(r[1..]);
      var r2 := ParseString(r[1..]).rest;
      var g1 := SkipsOff(r2);
      var r3 := SkipWs(r2);
      var g2 := SkipsOff(r3[1..]);
      l := Named(pre, key, g1, g2);
      Behind('"', r);
      Behind(':', r3);
      NamedText(pre, key, g1, g2, r2, r3[1..], SkipWs(r3[1..]));
    }
  }

  lemma Behind(c: char, s: string)
    requires s != "" && s[0] == c
    ensures s == [c] + s[1..]
  {}

  lemma NamedText(pre: string, key: seq<Elem>, g1: string, g2: string, r2: string, r3: string, rest: string)
    requires r2 == g1 + ([':'] + r3) && r3 == g2 + rest
    ensures pre + (['"'] + (ElemsText(key) + (['"'] + r2))) == LeadText(Named(pre, key, g1, g2)) + rest
  {
    Assoc4(pre + QuotedText(key), g1, [':'], g2);
    Assoc4(pre + QuotedText(key) + g1, [':'], g2, rest);
    Assoc3(pre + QuotedText(key), g1, [':'] + (g2 + rest));
    Assoc3(pre, QuotedText(key), g1 + ([':'] + (g2 + rest)));
    Assoc4(['"'], ElemsText(key), ['"'], g1 + ([':'] + (g2 + rest)));
    Assoc3([':'], g2, rest);
  }

  lemma {:induction false} ValueSound(s: string) returns (v: Value)
    requires ParseValue(s).Ok?
    ensures ValueOk(v) && Tree(v) == ParseValue(s).value && s == Text(v) + ParseValue(s).rest
    decreases |s|, 0
  {
    if s[0] == '"' {
      var es := StringSound(s[1..]);
      v := VString(es);
    } else if s[0] == '[' || s[0] == '{' {
      var k := if s[0] == '[' then Array else Object;
      var pad, es := BoxSound(k, s[1..]);
      v := VBox(k, pad, es);
      BoxText(k, pad, es, s, ParseValue(s).rest);
    } else {
      var n := ScalarRun(s);
      v := VScalar(s[..n]);
      assert s == s[..n] + s[n..];
    }
  }

  lemma BoxText(k: Kind, pad: string, es: Entries, s: string, rest: string)
    requires s != "" && s[0] == Opener(k)
    requires s[1..] == (if es.Nil? then pad else EntriesText(es)) + ([Closer(k)] + rest)
    ensures s == Text(VBox(k, pad, es)) + rest
  {
    var inner := if es.Nil? then pad else EntriesText(es);
    Assoc4([Opener(k)], inner, [Closer(k)], rest);
    Behind(s[0], s);
  }

  lemma {:induction false} BoxSound(k: Kind, s: string) returns (pad: string, es: Entries)
    requires ParseBox(k, s).Ok?
    ensures AllWs(pad) && EntriesOk(k, es) && JBox(k, EntriesTree(k, es)) == ParseBox(k, s).value
    ensures s == (if es.Nil? then pad else EntriesText(es)) + ([Closer(k)] + ParseBox(k, s).rest)
    decreases |s|, 3
  {
    var r := SkipWs(s);
    if r != "" && r[0] == Closer(k) {
      es := Nil;
      pad := SkipsOff(s);
      Behind(r[0], r);
    } else {
      pad := "";
      es := EntriesSound(k, s);
    }
  }

  lemma {:induction false} EntriesSound(k: Kind, s: string) returns (es: Entries)
    requires ParseEntries(k, s).Ok?
    ensures EntriesOk(k, es) && es.Cons? && EntriesTree(k, es) == ParseEntries(k, s).value
    ensures s == EntriesText(es) + ([Closer(k)] + ParseEntries(k, s).rest)
    decreases |s|, 2
  {
    var e := EntrySound(k, s);
    var r := ParseEntry(k, s).rest;
    Behind(r[0], r);
    if r[0] == ',' {
      var more := EntriesSound(k, r[1..]);
      es := Cons(e, more);
      EntriesSplit(es, [Closer(k)] + ParseEntries(k, s).rest);
    } else {
      es := Cons(e, Nil);
      OneEntry(k, e);
    }
  }

  lemma OneEntry(k: Kind, e: Entry)
    requires LeadOk(k, e.lead) && ValueOk(e.value) && AllWs(e.post)
    ensures EntriesText(Cons(e, Nil)) == LeadText(e.lead) + Text(e.value) + e.post
    ensures EntriesTree(k, Cons(e, Nil)) == [Field(LeadKey(k, e.lead), Tree(e.value))]
  {}

  lemma {:induction false} EntrySound(k: Kind, s: string) returns (e: Entry)
    requires ParseEntry(k, s).Ok?
    ensures LeadOk(k, e.lead) && ValueOk(e.value) && AllWs(e.post)
    ensures Field(LeadKey(k, e.lead), Tree(e.value)) == ParseEntry(k, s).value
    ensures s == LeadText(e.lead) + Text(e.value) + e.post + ParseEntry(k, s).rest
    decreases |s|, 1
  {
    var l := LeadSound(k, s);
    var r := ParseLead(k, s).rest;
    var v := ValueSound(r);
    var r2 := ParseValue(r).rest;
    var post := SkipsOff(r2);
    e := Entry(l, v, post);
    Assoc4(LeadText(l), Text(v), post, SkipWs(r2));
    Assoc3(Text(v), post, SkipWs(r2));
  }

  /** The reader decides the grammar: for every string, it yields a tree exactly when
      the string is a JSON text with that tree. */
  lemma ParseDecides(s: string, t: Json)
    ensures Parse(s) == Some(t) <==> Denotes(s, t)
  {
    if Parse(s) == Some(t) {
      var before := SkipsOff(s);
      var v := ValueSound(SkipWs(s));
      var after := SkipsOff(ParseValue(SkipWs(s)).rest);
      assert after + "" == after;
      Assoc3(before, Text(v), after);
      assert IsText(s, before, v, after);
    }
    if Denotes(s, t) {
      var before, v, after :| IsText(s, before, v, after) && Tree(v) == t;
      ReadsBack(before, v, after);
    }
  }
}
