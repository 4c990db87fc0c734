/** Reading a repaired text back: which cuts of a JSON text are mended, and to what. */
module JsonMeaning {
  import opened Wrappers
  import opened RustStrings
  import opened JsonGrammar
  import opened JsonRepair
  import opened JsonCut
  import opened JsonReader

  // -------------------------------------------------------- the repair of a cut

  predicate NeedsNull(t: Tip) { t.AfterComma? || t.AfterNameColon? }

  function Quote(t: Tip): string { if TipInString(t) then ['"'] else "" }

  function Filler(t: Tip): string { if NeedsNull(t) then "null" else Quote(t) }

  predicate IsGap(c: char) { c == ':' || c == ',' }

  lemma {:induction false} TrimEndWs(a: string, w: string)
    requires AllWs(w)
    ensures TrimEnd(a + w) == TrimEnd(a)
    decreases |w|
  {
    if w == "" {
      assert a + w == a;
    } else {
      assert (a + w)[..|a + w| - 1] == a + w[..|w| - 1];
      TrimEndWs(a, w[..|w| - 1]);
    }
  }

  /** The last significant character, when white space w follows text b. */
  lemma SignificantEnd(a: string, b: string, w: string)
    requires AllWs(w) && b != "" && !IsRustSpace(b[|b| - 1])
    ensures LastSignificant(a + b + w) == b[|b| - 1]
  {
    TrimEndWs(a + b, w);
    assert (a + b)[|a + b| - 1] == b[|b| - 1];
  }

  lemma TextEnd(v: Value)
    requires ValueOk(v)
    ensures Text(v) != "" && !IsRustSpace(Text(v)[|Text(v)| - 1]) && !IsGap(Text(v)[|Text(v)| - 1])
  {}

  /** The last significant character calls for a placeholder exactly at the tips
      that miss a value. */
  lemma {:induction false} CutEnd(a: string, c: Cut)
    requires CutOk(c) && !TipInString(TipOf(c))
    ensures IsGap(LastSignificant(a + CutText(c))) <==> NeedsNull(TipOf(c))
    decreases c, 0
  {
    assert a + CutText(c) + "" == a + CutText(c);
    match c
    case Whole(v) => TextEnd(v); SignificantEnd(a, Text(v), "");
    case InScalar(t) => SignificantEnd(a, t, "");
    case InString(_, _) =>
    case InBox(k, b) =>
      assert a + CutText(c) == a + [Opener(k)] + BodyText(b);
      BodyEnd(a + [Opener(k)], k, true, b);
  }

  lemma {:induction false} BodyEnd(a: string, k: Kind, first: bool, b: Body)
    requires BodyOk(k, b) && !TipInString(BodyTip(k, first, b))
    requires a != "" && a[|a| - 1] == if first then Opener(k) else ','
    ensures IsGap(LastSignificant(a + BodyText(b))) <==> NeedsNull(BodyTip(k, first, b))
    decreases b
  {
    match b
    case More(e, rest) =>
      var t := EntryText(e) + [','];
      assert a + BodyText(b) == a + t + BodyText(rest);
      BodyEnd(a + t, k, false, rest);
    case Here(last) => LastEnd(a, k, first, last);
  }

  lemma {:induction false} LastEnd(a: string, k: Kind, first: bool, last: Last)
    requires LastOk(k, last) && !TipInString(LastTip(k, first, last))
    requires a != "" && a[|a| - 1] == if first then Opener(k) else ','
    ensures IsGap(LastSignificant(a + LastText(last))) <==> NeedsNull(LastTip(k, first, last))
    decreases last
  {
    match last
    case Fresh(ws) =>
      assert a + ws == "" + a + ws;
      SignificantEnd("", a, ws);
    case InKey(_, _, _) =>
    case AfterKey(pre, key, ws) => NameEnd(a, pre, key, ws);
    case AfterColon(pre, key, gap, ws) => ColonEnd(a, pre, key, gap, ws);
    case InValue(lead, c, post) => ValueEnd(a, lead, c, post);
  }

  lemma {:induction false} ValueEnd(a: string, lead: Lead, c: Cut, post: string)
    requires CutOk(c) && AllWs(post) && (post != "" ==> c.Whole?) && !TipInString(TipOf(c))
    ensures IsGap(LastSignificant(a + (LeadText(lead) + CutText(c) + post))) <==> NeedsNull(TipOf(c))
    decreases c, 1
  {
    var b := a + LeadText(lead);
    assert a + (LeadText(lead) + CutText(c) + post) == b + CutText(c) + post;
    if c.Whole? {
      TextEnd(c.v);
      SignificantEnd(b, Text(c.v), post);
    } else {
      assert b + CutText(c) + post == b + CutText(c);
      CutEnd(b, c);
    }
  }

  lemma NameEnd(a: string, pre: string, key: seq<Elem>, ws: string)
    requires AllWs(ws)
    ensures LastSignificant(a + (pre + QuotedText(key) + ws)) == '"'
  {
    var t := pre + QuotedText(key);
    SignificantEnd(a, t, ws);
    assert a + (pre + QuotedText(key) + ws) == a + t + ws;
  }

  lemma ColonEnd(a: string, pre: string, key: seq<Elem>, gap: string, ws: string)
    requires AllWs(ws)
    ensures LastSignificant(a + (pre + QuotedText(key) + gap + [':'] + ws)) == ':'
  {
    var t := pre + QuotedText(key) + gap + [':'];
    SignificantEnd(a, t, ws);
    assert a + (t + ws) == a + t + ws;
  }

  /** What follows the cut once repaired, seen from inside: the filler of the tip,
      then one closer per container on the way out. */
  function Fill(c: Cut): string
    decreases c
  {
    match c
    case Whole(_) => ""
    case InScalar(_) => ""
    case InString(_, _) => ['"']
    case InBox(k, b) => BodyFill(k, true, b) + [Closer(k)]
  }

  function BodyFill(k: Kind, first: bool, b: Body): string
    decreases b
  {
    match b
    case More(_, rest) => BodyFill(k, false, rest)
    case Here(last) => if last.InValue? then Fill(last.cut) else Filler(LastTip(k, first, last))
  }

  lemma {:induction false} ReversedCons(c: char, s: string)
    ensures Reversed([c] + s) == Reversed(s) + [c]
    decreases |s|
  {
    if s == "" {
      assert [c] + s == [c];
    } else {
      var t := s[..|s| - 1];
      assert ([c] + s)[..|s|] == [c] + t;
      ReversedCons(c, t);
    }
  }

  lemma {:induction false} FillShape(c: Cut)
    ensures Fill(c) == Filler(TipOf(c)) + Reversed(Stack(c))
    decreases c
  {
    if c.InBox? {
      BodyFillShape(c.kind, true, c.body);
      ReversedCons(Closer(c.kind), BodyStack(c.body));
    }
  }

  lemma {:induction false} BodyFillShape(k: Kind, first: bool, b: Body)
    ensures BodyFill(k, first, b) == Filler(BodyTip(k, first, b)) + Reversed(BodyStack(b))
    decreases b
  {
    match b
    case More(_, rest) => BodyFillShape(k, false, rest);
    case Here(last) =>
      if last.InValue? { FillShape(last.cut); }
      else { assert Filler(LastTip(k, first, last)) + "" == Filler(LastTip(k, first, last)); }
  }

  /** Repairing a cut of a container appends exactly `Fill`. */
  lemma RepairOfCut(before: string, c: Cut)
    requires AllWs(before) && CutOk(c) && c.InBox?
    ensures Repair(before + CutText(c)) == Some(before + CutText(c) + Fill(c))
  {
    ScanOfCut(before, c);
    FillerOfCut(before, c);
    FillShape(c);
    TrimsWs(before, CutText(c));
    var s := before + CutText(c);
    assert OpensContainer(s);
    assert s + Fill(c) == s + Suffix(s);
  }

  lemma ScanOfCut(before: string, c: Cut)
    requires AllWs(before) && CutOk(c)
    ensures Scan(IDLE, before + CutText(c)) == Scanner(Stack(c), TipInString(TipOf(c)), TipInEscape(TipOf(c)))
  {
    WsScan(IDLE, before);
    ScanConcat(IDLE, before, CutText(c));
    ScanCut(IDLE, c);
    assert "" + Stack(c) == Stack(c);
  }

  lemma FillerOfCut(before: string, c: Cut)
    requires AllWs(before) && CutOk(c)
    ensures Suffix(before + CutText(c)) == Filler(TipOf(c)) + Reversed(Stack(c))
  {
    var s, t := before + CutText(c), TipOf(c);
    ScanOfCut(before, c);
    if TipInString(t) {
      QuoteIsSignificant(s);
      SuffixIs(s, ['"'], "", Filler(t));
    } else {
      assert s + "" == s;
      CutEnd(before, c);
      SuffixIs(s, "", Filler(t), Filler(t));
    }
  }

  /** The suffix, from what the scan and the last significant character say. */
  lemma SuffixIs(s: string, quote: string, placeholder: string, fill: string)
    requires quote == if Scan(IDLE, s).inString then ['"'] else ""
    requires placeholder == if IsGap(LastSignificant(s + quote)) then "null" else ""
    requires fill == quote + placeholder
    ensures Suffix(s) == fill + Reversed(Scan(IDLE, s).stack)
  {}

  lemma {:induction false} TrimsWs(w: string, t: string)
    requires AllWs(w)
    ensures TrimStart(w + t) == TrimStart(t)
  {
    if w == "" {
      assert w + t == t;
    } else {
      assert (w + t)[1..] == w[1..] + t;
      TrimsWs(w[1..], t);
    }
  }

  // --------------------------------------------------------- reading it back

  lemma {:induction false} ClosersEndNoString(s: string)
    requires Closers(s)
    ensures ParseString(s) == Fail
  {
    if s != "" { ClosersEndNoString(s[1..]); }
  }

  /** An unfinished escape swallows or spoils the quote that was meant to close it. */
  lemma EscapeSpoilsString(esc: string, rest: string)
    requires PartialEscape(esc) && esc != "" && Closers(rest)
    ensures ParseString(esc + (['"'] + rest)) == Fail
  {
    var s := esc + (['"'] + rest);
    if esc == "\\" {
      assert s[1] == '"' && s[2..] == rest;
      ClosersEndNoString(rest);
    } else if PartialUnit(esc) {
      QuoteBreaksUnit(esc, rest);
    } else {
      QuoteBreaksPair(esc, rest);
    }
  }

  lemma QuoteBreaksUnit(esc: string, rest: string)
    requires PartialUnit(esc)
    ensures !UnitAt(esc + (['"'] + rest))
  {
    var s := esc + (['"'] + rest);
    assert s[|esc|] == '"';
    if |esc| >= 2 && |s| >= 6 { assert s[2..6][|esc| - 2] == '"'; }
  }

  lemma QuoteBreaksPair(esc: string, rest: string)
    requires PartialEscape(esc) && !PartialUnit(esc)
    ensures ParseString(esc + (['"'] + rest)) == Fail
  {
    var s := esc + (['"'] + rest);
    assert s[6..] == esc[6..] + (['"'] + rest);
    QuoteBreaksUnit(esc[6..], rest);
    assert s[2..6] == esc[2..6] && s[0] == esc[..2][0] && s[1] == esc[..2][1];
  }

  lemma ReadsOpenString(es: seq<Elem>, esc: string, rest: string)
    requires ElemsOk(es) && PartialEscape(esc) && Closers(rest)
    ensures ParseString(ElemsText(es) + esc + (['"'] + rest)) ==
            if esc == "" then Ok(ElemsValue(es), rest) else Fail
  {
    var tail := esc + (['"'] + rest);
    Assoc3(ElemsText(es), esc, ['"'] + rest);
    ReadsElems(es, tail);
    if esc == "" {
      assert ElemsValue(es) + [] == ElemsValue(es);
    } else {
      EscapeSpoilsString(esc, rest);
    }
  }

  function Read<T>(kept: Option<T>, rest: string): Parsed<T> {
    match kept
    case None => Fail
    case Some(t) => Ok(t, rest)
  }

  /** A filled-in cut reads as what was kept, or does not read at all. */
  lemma {:induction false} ReadsCut(c: Cut, rest: string)
    requires CutOk(c) && Closers(rest)
    ensures ParseValue(CutText(c) + Fill(c) + rest) == Read(Kept(c), rest)
    decreases c, 3
  {
    match c
    case Whole(v) =>
      assert CutText(c) + Fill(c) + rest == Text(v) + rest;
      ReadsValue(v, rest);
    case InScalar(t) => ReadsInScalar(t, rest);
    case InString(es, esc) =>
      ReadsOpenString(es, esc, rest);
      ReadsAfterQuote(ElemsText(es) + esc, ['"'], rest);
    case InBox(k, b) =>
      ReadsCutBox(k, b, rest);
      ReadsAfterOpener(k, BodyText(b), BodyFill(k, true, b), rest);
  }

  lemma ReadsAfterQuote(t: string, quote: string, rest: string)
    ensures ParseValue(['"'] + t + quote + rest) ==
            match ParseString(t + (quote + rest)) case Fail => Fail case Ok(u, r) => Ok(JString(u), r)
  {
    var s := t + (quote + rest);
    assert ['"'] + t + quote + rest == ['"'] + s && (['"'] + s)[1..] == s;
  }

  lemma ReadsAfterOpener(k: Kind, t: string, fill: string, rest: string)
    ensures ParseValue([Opener(k)] + t + (fill + [Closer(k)]) + rest) == ParseBox(k, t + fill + ([Closer(k)] + rest))
  {
    var s := t + fill + ([Closer(k)] + rest);
    assert [Opener(k)] + t + (fill + [Closer(k)]) + rest == [Opener(k)] + s && ([Opener(k)] + s)[1..] == s;
  }

  lemma ReadsInScalar(t: string, rest: string)
    requires t != "" && AllScalarChars(t) && Closers(rest)
    ensures ParseValue(t + "" + rest) == if IsScalar(t) then Ok(JScalar(t), rest) else Fail
  {
    var s := t + "" + rest;
    assert s == t + rest;
    RunsToStop(t, rest);
    assert s[..|t|] == t && s[|t|..] == rest;
    assert IsScalarChar(s[0]);
  }

  lemma {:induction false} ReadsCutBox(k: Kind, b: Body, rest: string)
    requires BodyOk(k, b) && Closers(rest)
    ensures ParseBox(k, BodyText(b) + BodyFill(k, true, b) + ([Closer(k)] + rest))
         == Read(Kept(InBox(k, b)), rest)
    decreases b, 2
  {
    var end := [Closer(k)] + rest;
    if b.Here? && b.last.Fresh? {
      ReadsEmptyBox(k, b.last.ws, rest);
      assert BodyText(b) + "" + end == b.last.ws + end;
      assert KeptLast(k, true, b.last) == Some([]) && KeptFields(k, true, b) == Some([]);
    } else {
      var fill := BodyFill(k, true, b);
      BodyNotClosed(k, b, fill + end);
      Assoc3(BodyText(b), fill, end);
      ReadsBody(k, true, b, rest);
    }
  }

  lemma ReadsEmptyBox(k: Kind, ws: string, rest: string)
    requires AllWs(ws)
    ensures ParseBox(k, ws + ([Closer(k)] + rest)) == Ok(JBox(k, []), rest)
  {
    var end := [Closer(k)] + rest;
    SkipsWs(ws, end);
    assert end[1..] == rest;
  }

  lemma BodyNotClosed(k: Kind, b: Body, rest: string)
    requires BodyOk(k, b) && (b.Here? ==> !b.last.Fresh?)
    ensures var r := SkipWs(BodyText(b) + rest); r != "" && r[0] != Closer(k)
  {
    match b
    case More(e, more) =>
      var tail := [','] + BodyText(more) + rest;
      assert BodyText(b) + rest == LeadText(e.lead) + Text(e.value) + e.post + tail;
      NotClosed(k, e, tail);
    case Here(last) => LastNotClosed(k, last, rest);
  }

  lemma LastNotClosed(k: Kind, last: Last, rest: string)
    requires LastOk(k, last) && !last.Fresh?
    ensures var r := SkipWs(LastText(last) + rest); r != "" && r[0] != Closer(k)
  {
    match last
    case InKey(pre, es, esc) => QuotedNotClosed(k, pre, ElemsText(es) + esc, rest);
    case AfterKey(pre, key, ws) =>
      QuotedNotClosed(k, pre, ElemsText(key) + ['"'] + ws, rest);
      AfterKeyText(pre, key, ws);
    case AfterColon(pre, key, gap, ws) =>
      QuotedNotClosed(k, pre, ElemsText(key) + ['"'] + (gap + [':'] + ws), rest);
      AfterColonText(pre, key, gap, ws);
    case InValue(lead, c, post) =>
      LeadNotClosed(k, lead, CutText(c) + (post + rest));
      Assoc3(LeadText(lead) + CutText(c), post, rest);
      Assoc3(LeadText(lead), CutText(c), post + rest);
  }

  lemma AfterKeyText(pre: string, key: seq<Elem>, ws: string)
    ensures pre + QuotedText(key) + ws == pre + (['"'] + (ElemsText(key) + ['"'] + ws))
  {
    Assoc3(['"'], ElemsText(key), ['"']);
    Assoc3(['"'], ElemsText(key) + ['"'], ws);
    Assoc3(pre, QuotedText(key), ws);
  }

  lemma AfterColonText(pre: string, key: seq<Elem>, gap: string, ws: string)
    ensures LeadText(Named(pre, key, gap, ws)) == pre + (['"'] + (ElemsText(key) + ['"'] + (gap + [':'] + ws)))
  {
    var q := pre + QuotedText(key);
    Assoc4(q, gap, [':'], ws);
    AfterKeyText(pre, key, gap + [':'] + ws);
  }

  lemma QuotedNotClosed(k: Kind, pre: string, t: string, rest: string)
    requires AllWs(pre)
    ensures var r := SkipWs(pre + (['"'] + t) + rest); r != "" && r[0] != Closer(k)
  {
    SkipsWs(pre, ['"'] + t + rest);
    assert pre + (['"'] + t) + rest == pre + (['"'] + t + rest);
  }

  lemma StartsQuoted(pre: string, t: string)
    requires AllWs(pre)
    ensures SkipWs(pre + (['"'] + t)) == ['"'] + t
  {
    SkipsWs(pre, ['"'] + t);
  }

  /** Reading the entries of a filled-in container. */
  lemma {:induction false} ReadsBody(k: Kind, first: bool, b: Body, rest: string)
    requires BodyOk(k, b) && Closers(rest)
    requires first ==> b.More? || !b.last.Fresh?
    ensures ParseEntries(k, BodyText(b) + BodyFill(k, first, b) + ([Closer(k)] + rest))
         == Read(KeptFields(k, first, b), rest)
    decreases b, 1
  {
    var end := [Closer(k)] + rest;
    match b
    case More(e, more) =>
      var t := BodyText(more);
      var fill := BodyFill(k, false, more);
      assert BodyText(b) == EntryText(e) + [','] + t;
      assert BodyFill(k, first, b) == fill;
      ReadsBody(k, false, more, rest);
      ReadsMore(k, e, t, fill + end);
      Assoc3(t, fill, end);
      Assoc3(EntryText(e) + [','] + t, fill, end);
    case Here(last) => ReadsLast(k, first, last, rest);
  }

  lemma ReadsMore(k: Kind, e: Entry, t: string, rest: string)
    requires EntryOk(k, e)
    ensures ParseEntries(k, EntryText(e) + [','] + t + rest)
         == Prepend(Field(LeadKey(k, e.lead), Tree(e.value)), ParseEntries(k, t + rest))
  {
    var after := [','] + (t + rest);
    ReadsEntry(k, e, after);
    assert after[1..] == t + rest;
    assert EntryText(e) + [','] + t + rest == EntryText(e) + after;
  }

  /** What the reader makes of the place of the cut itself. */
  lemma {:induction false} ReadsLast(k: Kind, first: bool, last: Last, rest: string)
    requires LastOk(k, last) && Closers(rest) && (first ==> !last.Fresh?)
    ensures ParseEntries(k, LastText(last) + BodyFill(k, first, Here(last)) + ([Closer(k)] + rest))
         == Read(KeptLast(k, first, last), rest)
    decreases last, 1
  {
    var end := [Closer(k)] + rest;
    LastEntry(k, LastText(last) + BodyFill(k, first, Here(last)) + end, rest);
    match last
    case Fresh(ws) => ReadsFresh(k, ws, end);
    case InKey(pre, es, esc) => ReadsInKey(k, pre, es, esc, end);
    case AfterKey(pre, key, ws) => ReadsAfterKey(k, pre, key, ws, end);
    case AfterColon(pre, key, gap, ws) => ReadsNull(k, Named(pre, key, gap, ws), end);
    case InValue(lead, c, post) => ReadsInValue(k, lead, c, post, end);
  }

  /** The entries end with the entry behind which the container is closed. */
  lemma LastEntry(k: Kind, s: string, rest: string)
    ensures ParseEntry(k, s) == Fail ==> ParseEntries(k, s) == Fail
    ensures forall f :: ParseEntry(k, s) == Ok(f, [Closer(k)] + rest) ==> ParseEntries(k, s) == Ok([f], rest)
  {
    assert ([Closer(k)] + rest)[1..] == rest;
  }

  lemma ReadsFresh(k: Kind, ws: string, end: string)
    requires AllWs(ws) && Closers(end) && end != ""
    ensures ParseEntry(k, ws + "null" + end) ==
            if k == Array then Ok(Field([], JScalar("null")), end) else Fail
  {
    if k == Array {
      ReadsNull(k, Bare(ws), end);
    } else {
      SkipsWs(ws, "null" + end);
      assert ws + "null" + end == ws + ("null" + end);
    }
  }

  lemma ReadsInKey(k: Kind, pre: string, es: seq<Elem>, esc: string, end: string)
    requires k == Object && AllWs(pre) && ElemsOk(es) && PartialEscape(esc) && Closers(end) && end != ""
    ensures ParseEntry(k, pre + (['"'] + (ElemsText(es) + esc)) + ['"'] + end) == Fail
  {
    var u := ElemsText(es) + esc;
    var t := u + (['"'] + end);
    StartsQuoted(pre, t);
    NameText(pre, u, end);
    assert (['"'] + t)[1..] == t;
    ReadsOpenString(es, esc, end);
    assert SkipWs(end) == end;
  }

  lemma NameText(pre: string, u: string, end: string)
    ensures pre + (['"'] + u) + ['"'] + end == pre + (['"'] + (u + (['"'] + end)))
  {
    Assoc4(pre, ['"'] + u, ['"'], end);
    Assoc4(['"'], u, ['"'], end);
    Assoc3(u, ['"'], end);
  }

  lemma ReadsAfterKey(k: Kind, pre: string, key: seq<Elem>, ws: string, end: string)
    requires k == Object && AllWs(pre) && ElemsOk(key) && AllWs(ws) && Closers(end) && end != ""
    ensures ParseEntry(k, pre + QuotedText(key) + ws + "" + end) == Fail
  {
    var t := ElemsText(key) + ['"'] + (ws + end);
    StartsQuoted(pre, t);
    assert QuotedText(key) + (ws + end) == ['"'] + t;
    assert pre + QuotedText(key) + ws + "" + end == pre + (['"'] + t);
    ReadsQuoted(key, ws + end);
    SkipsWs(ws, end);
  }

  lemma {:induction false} ReadsInValue(k: Kind, lead: Lead, c: Cut, post: string, end: string)
    requires LastOk(k, InValue(lead, c, post)) && Closers(end) && end != ""
    ensures ParseEntry(k, LeadText(lead) + CutText(c) + post + Fill(c) + end) ==
            match Kept(c)
            case None => Fail
            case Some(t) => Ok(Field(LeadKey(k, lead), t), end)
    decreases c, 4
  {
    if c.Whole? {
      ReadsWhole(k, Entry(lead, c.v, post), end);
    } else {
      ReadsCut(c, end);
      ReadsPart(k, lead, c, end);
      assert LeadText(lead) + CutText(c) + post == LeadText(lead) + CutText(c);
    }
  }

  lemma ReadsPart(k: Kind, lead: Lead, c: Cut, end: string)
    requires LeadOk(k, lead) && CutOk(c) && Closers(end) && end != ""
    requires ParseValue(CutText(c) + Fill(c) + end) == Read(Kept(c), end)
    ensures ParseEntry(k, LeadText(lead) + CutText(c) + Fill(c) + end) ==
            match Kept(c)
            case None => Fail
            case Some(t) => Ok(Field(LeadKey(k, lead), t), end)
  {
    Assoc3(CutText(c), Fill(c), end);
    ReadsLead(k, lead, CutText(c) + Fill(c) + end);
    Assoc4(LeadText(lead), CutText(c), Fill(c), end);
    assert SkipWs(end) == end;
  }

  lemma ReadsWhole(k: Kind, e: Entry, end: string)
    requires EntryOk(k, e) && Closers(end) && end != ""
    ensures ParseEntry(k, EntryText(e) + "" + end) == Ok(Field(LeadKey(k, e.lead), Tree(e.value)), end)
  {
    ReadsEntry(k, e, end);
    assert EntryText(e) + "" + end == EntryText(e) + end;
  }

  lemma ReadsNull(k: Kind, l: Lead, end: string)
    requires LeadOk(k, l) && end != "" && Closers(end)
    ensures ParseEntry(k, LeadText(l) + "null" + end) == Ok(Field(LeadKey(k, l), JScalar("null")), end)
  {
    var e := Entry(l, VScalar("null"), "");
    assert IsScalar("null");
    ReadsEntry(k, e, end);
    NothingMore(LeadText(l) + "null");
  }

  lemma NothingMore(s: string)
    ensures s + "" == s
  {}

  // ------------------------------------------------------------ main theorems

  /** For every JSON text whose root is a container and every cut inside that
      container: the repaired text is read back exactly when the cut is at a mendable
      place, and then as the original tree with everything after the cut dropped. */
  lemma RepairPreservesMeaning(before: string, v: Value, n: nat)
    requires AllWs(before) && ValueOk(v) && v.VBox? && 0 < n < |Text(v)|
    ensures var r := Repair(before + Text(v)[..n]);
            && r.Some?
            && (Parse(r.value).Some? <==> Mendable(TipOf(CutValue(v, n))))
            && (Parse(r.value).Some? ==> Truncates(Tree(v), Parse(r.value).value))
  {
    var c := CutValue(v, n);
    ReadsRepaired(before, v, n);
    KeptWhenMendable(c);
    KeptTruncates(v, n);
  }

  /** The same, with the tree spelled out. */
  lemma ReadsRepaired(before: string, v: Value, n: nat)
    requires AllWs(before) && ValueOk(v) && v.VBox? && 0 < n < |Text(v)|
    ensures CutOk(CutValue(v, n))
    ensures var r := Repair(before + Text(v)[..n]);
            r.Some? && Parse(r.value) == Kept(CutValue(v, n))
  {
    var c := CutValue(v, n);
    CutValueText(v, n);
    RepairOfCut(before, c);
    ParsesFilled(before, c);
  }

  lemma ParsesFilled(before: string, c: Cut)
    requires AllWs(before) && CutOk(c)
    ensures Parse(before + CutText(c) + Fill(c)) == Kept(c)
  {
    var t := CutText(c) + Fill(c);
    Assoc3(before, CutText(c), Fill(c));
    SkipsWs(before, t);
    ReadsCut(c, "");
    assert t + "" == t;
    assert SkipWs("") == "";
  }

  /** And against the grammar itself: the repaired text is a JSON text with tree t
      exactly when t is what the cut keeps. */
  lemma RepairedTextDenotes(before: string, v: Value, n: nat, t: Json)
    requires AllWs(before) && ValueOk(v) && v.VBox? && 0 < n < |Text(v)|
    ensures CutOk(CutValue(v, n)) && Repair(before + Text(v)[..n]).Some?
    ensures Denotes(Repair(before + Text(v)[..n]).value, t) <==> Kept(CutValue(v, n)) == Some(t)
  {
    ReadsRepaired(before, v, n);
    ParseDecides(Repair(before + Text(v)[..n]).value, t);
  }

  /** Where a text stops is a matter of the text alone: whichever complete texts two equal
      cuts were cut from, they keep the same tree, and both are mendable or neither is. */
  lemma MendableByText(c1: Cut, c2: Cut)
    requires CutOk(c1) && c1.InBox? && CutOk(c2) && c2.InBox? && CutText(c1) == CutText(c2)
    ensures Kept(c1) == Kept(c2) && (Mendable(TipOf(c1)) <==> Mendable(TipOf(c2)))
  {
    RepairOfCut("", c1);
    RepairOfCut("", c2);
    var s := "" + CutText(c1);
    assert (s + Fill(c1))[|s|..] == Fill(c1) && (s + Fill(c2))[|s|..] == Fill(c2);
    ReadsCut(c1, "");
    ReadsCut(c2, "");
    KeptWhenMendable(c1);
    KeptWhenMendable(c2);
  }

  /** A complete text is left alone. */
  lemma CompleteTextIsNotRepaired(before: string, v: Value, after: string)
    requires AllWs(before) && ValueOk(v) && AllWs(after)
    ensures Repair(before + Text(v) + after) == None
  {
    WsScan(IDLE, before);
    ScanValue(IDLE, v);
    WsScan(IDLE, after);
    ScanConcat(IDLE, before, Text(v));
    ScanConcat(IDLE, before + Text(v), after);
    RepairDeclines(before + Text(v) + after);
  }

  /** Two families of cuts that repair cannot mend: after the comma that follows the
      first member of an object, where the placeholder is no member, ... */
  lemma ObjectCommaFails(e: Entry)
    requires EntryOk(Object, e)
    ensures var text := "{" + EntryText(e) + ",";
            Repair(text) == Some(text + "null}") && Parse(text + "null}") == None
  {
    var last := Here(Fresh(""));
    var body := More(e, last);
    assert BodyText(last) == "";
    assert "{" + EntryText(e) + "," == [Opener(Object)] + (EntryText(e) + [','] + "");
    assert BodyFill(Object, true, body) == BodyFill(Object, false, last) == "null";
    assert KeptLast(Object, false, Fresh("")) == None;
    assert KeptFields(Object, false, last) == None;
    FailsOn(InBox(Object, body), "{" + EntryText(e) + ",", "null}");
  }

  /** ... and inside an escape in a string of an array: right after its backslash, where
      the appended quote is itself escaped, within \uXXXX, or between the two halves of a
      surrogate pair. */
  lemma EscapeFails(es: seq<Elem>, esc: string)
    requires ElemsOk(es) && PartialEscape(esc) && esc != ""
    ensures var text := "[\"" + ElemsText(es) + esc;
            Repair(text) == Some(text + "\"]") && Parse(text + "\"]") == None
  {
    var c := InString(es, esc);
    var last := InValue(Bare(""), c, "");
    assert CutOk(c) && LastOk(Array, last);
    assert LastText(last) == "" + (['"'] + (ElemsText(es) + esc)) + "";
    assert "[\"" + ElemsText(es) + esc == [Opener(Array)] + LastText(last);
    assert BodyFill(Array, true, Here(last)) == Fill(c) == "\"";
    assert Kept(c) == None;
    assert KeptLast(Array, true, last) == None;
    FailsOn(InBox(Array, Here(last)), "[\"" + ElemsText(es) + esc, "\"]");
  }

  lemma FailsOn(c: Cut, text: string, fill: string)
    requires CutOk(c) && c.InBox? && Kept(c) == None && CutText(c) == text && Fill(c) == fill
    ensures Repair(text) == Some(text + fill) && Parse(text + fill) == None
  {
    assert "" + text == text;
    RepairOfCut("", c);
    ReadsCut(c, "");
    assert text + fill + "" == text + fill;
  }
}
