/** What repairing means: a JSON text is cut anywhere inside its root container,
    the cut text is repaired, and the result is read back. */
module JsonCut {
  import opened Wrappers
  import opened JsonGrammar
  import opened JsonRepair

  // ------------------------------------------------- the shape of a cut text

  /** A value with everything after some position cut away.  `Whole` is not cut at
      all; the others stop inside the value. */
  datatype Cut =
    | Whole(v: Value)
    | InScalar(text: string)
    | InString(elems: seq<Elem>, escape: string)
    | InBox(kind: Kind, body: Body)

  /** The entries of an open container: complete ones, each followed by its comma,
      and then the place of the cut. */
  datatype Body = More(e: Entry, rest: Body) | Here(last: Last)

  datatype Last =
    | Fresh(ws: string)
    | InKey(pre: string, elems: seq<Elem>, escape: string)
    | AfterKey(pre: string, key: seq<Elem>, ws: string)
    | AfterColon(pre: string, key: seq<Elem>, gap: string, ws: string)
    | InValue(lead: Lead, cut: Cut, post: string)

  /** A backslash escape that has started but is not complete. */
  predicate PartialEscape(e: string) {
    PartialUnit(e) || (|e| >= 6 && e[..2] == "\\u" && IsHigh(e[2..6]) && PartialUnit(e[6..]))
  }

  predicate PartialUnit(e: string) {
    e == "" || e == "\\" || (2 <= |e| < 6 && e[..2] == "\\u" && AllHex(e[2..]))
  }

  predicate CutOk(c: Cut)
    decreases c
  {
    match c
    case Whole(v) => ValueOk(v)
    case InScalar(t) => t != "" && AllScalarChars(t)
    case InString(es, esc) => ElemsOk(es) && PartialEscape(esc)
    case InBox(k, b) => BodyOk(k, b)
  }

  predicate BodyOk(k: Kind, b: Body)
    decreases b
  {
    match b
    case More(e, rest) => EntryOk(k, e) && BodyOk(k, rest)
    case Here(last) => LastOk(k, last)
  }

  predicate EntryOk(k: Kind, e: Entry) { LeadOk(k, e.lead) && ValueOk(e.value) && AllWs(e.post) }

  predicate LastOk(k: Kind, last: Last)
    decreases last
  {
    match last
    case Fresh(ws) => AllWs(ws)
    case InKey(pre, es, esc) => k == Object && AllWs(pre) && ElemsOk(es) && PartialEscape(esc)
    case AfterKey(pre, key, ws) => k == Object && AllWs(pre) && ElemsOk(key) && AllWs(ws)
    case AfterColon(pre, key, gap, ws) => LeadOk(k, Named(pre, key, gap, ws))
    case InValue(lead, c, post) => LeadOk(k, lead) && CutOk(c) && AllWs(post) && (post != "" ==> c.Whole?)
  }

  function CutText(c: Cut): string {
    match c
    case Whole(v) => Text(v)
    case InScalar(t) => t
    case InString(es, esc) => ['"'] + (ElemsText(es) + esc)
    case InBox(k, b) => [Opener(k)] + BodyText(b)
  }

  function BodyText(b: Body): string {
    match b
    case More(e, rest) => EntryText(e) + [','] + BodyText(rest)
    case Here(last) => LastText(last)
  }

  function EntryText(e: Entry): string { LeadText(e.lead) + Text(e.value) + e.post }

  function LastText(last: Last): string {
    match last
    case Fresh(ws) => ws
    case InKey(pre, es, esc) => pre + (['"'] + (ElemsText(es) + esc))
    case AfterKey(pre, key, ws) => pre + QuotedText(key) + ws
    case AfterColon(pre, key, gap, ws) => LeadText(Named(pre, key, gap, ws))
    case InValue(lead, c, post) => LeadText(lead) + CutText(c) + post
  }

  // ----------------------------------------------- cutting a concrete syntax tree

  /** The elements of a string wholly before position n, and the part of an escape
      that the cut leaves behind. */
  function CutElems(es: seq<Elem>, n: nat): (seq<Elem>, string)
    requires n <= |ElemsText(es)|
  {
    if es == [] then ([], "")
    else if n < |ElemText(es[0])| then ([], ElemText(es[0])[..n])
    else
      var (more, esc) := CutElems(es[1..], n - |ElemText(es[0])|);
      ([es[0]] + more, esc)
  }

  function CutLead(l: Lead, n: nat): Last
    requires n <= |LeadText(l)|
  {
    match l
    case Bare(pre) => Fresh(pre[..n])
    case Named(pre, key, g1, g2) =>
      var q := |pre| + |QuotedText(key)|;
      if n <= |pre| then Fresh(pre[..n])
      else if n < q then
        var (es, esc) := CutElems(key, n - |pre| - 1);
        InKey(pre, es, esc)
      else if n <= q + |g1| then AfterKey(pre, key, g1[..n - q])
      else AfterColon(pre, key, g1, g2[..n - q - |g1| - 1])
  }

  /** The first n characters of a value. */
  function CutValue(v: Value, n: nat): Cut
    requires 0 < n <= |Text(v)|
    decreases v
  {
    if n == |Text(v)| then Whole(v)
    else
      match v
      case VScalar(t) => InScalar(t[..n])
      case VString(es) =>
        var (done, esc) := CutElems(es, n - 1);
        InString(done, esc)
      case VBox(k, pad, Nil) => InBox(k, Here(Fresh(pad[..n - 1])))
      case VBox(k, pad, es) => InBox(k, CutEntries(es, n - 1))
  }

  function CutEntries(es: Entries, n: nat): Body
    requires es.Cons? && n <= |EntriesText(es)|
    decreases es
  {
    var Entry(lead, value, post) := es.head;
    var l := |LeadText(lead)|;
    var v := l + |Text(value)|;
    if n <= l then Here(CutLead(lead, n))
    else if n <= v then Here(InValue(lead, CutValue(value, n - l), ""))
    else if n <= v + |post| then Here(InValue(lead, Whole(value), post[..n - v]))
    else More(es.head, CutEntries(es.tail, n - v - |post| - 1))
  }

  lemma PartOfElem(e: Elem, n: nat)
    requires ElemOk(e) && n < |ElemText(e)|
    ensures PartialEscape(ElemText(e)[..n])
  {
    match e
    case Plain(c) =>
    case Short(c) =>
    case Hex(h) => PartOfUnit(h, n);
    case Pair(hi, lo) =>
      var a, b := "\\u" + hi, "\\u" + lo;
      if n < 6 {
        assert (a + b)[..n] == a[..n];
        PartOfUnit(hi, n);
      } else {
        var t := (a + b)[..n];
        assert t[..2] == "\\u" && t[2..6] == hi && t[6..] == b[..n - 6];
        PartOfUnit(lo, n - 6);
      }
  }

  lemma PartOfUnit(h: string, n: nat)
    requires IsUnit(h) && n < 6
    ensures PartialUnit(("\\u" + h)[..n])
  {
    var t := ("\\u" + h)[..n];
    if n >= 2 { assert t[..2] == "\\u" && t[2..] == h[..n - 2]; }
  }

  lemma ConsElem(e: Elem, more: seq<Elem>, esc: string)
    requires ElemOk(e) && ElemsOk(more)
    ensures ElemsOk([e] + more) && ElemsText([e] + more) + esc == ElemText(e) + (ElemsText(more) + esc)
  {
    assert ([e] + more)[1..] == more;
  }

  lemma TakeBehind(a: string, b: string, n: nat)
    requires |a| <= n <= |a| + |b|
    ensures (a + b)[..n] == a + b[..n - |a|]
  {}

  lemma {:induction false} CutElemsText(es: seq<Elem>, n: nat)
    requires ElemsOk(es) && n <= |ElemsText(es)|
    ensures var (done, esc) := CutElems(es, n);
            ElemsOk(done) && PartialEscape(esc) && ElemsText(done) + esc == ElemsText(es)[..n]
  {
    if es != [] {
      var t := ElemText(es[0]);
      if n < |t| {
        PartOfElem(es[0], n);
        assert ElemsText([]) + t[..n] == t[..n] == ElemsText(es)[..n];
      } else {
        CutElemsText(es[1..], n - |t|);
        var (more, esc) := CutElems(es[1..], n - |t|);
        ConsElem(es[0], more, esc);
        TakeBehind(t, ElemsText(es[1..]), n);
      }
    }
  }

  lemma CutLeadText(k: Kind, l: Lead, n: nat)
    requires LeadOk(k, l) && n <= |LeadText(l)|
    ensures LastOk(k, CutLead(l, n)) && LastText(CutLead(l, n)) == LeadText(l)[..n]
  {
    match l
    case Bare(pre) =>
    case Named(pre, key, g1, g2) =>
      var quoted := QuotedText(key);
      TakeParts(pre, quoted, g1, g2, n);
      if |pre| < n < |pre| + |quoted| {
        var m := n - |pre| - 1;
        CutElemsText(key, m);
        TakeQuoted(ElemsText(key), m);
      }
  }

  /** The first characters of a member's lead, by the part they end in. */
  lemma TakeParts(pre: string, quoted: string, g1: string, g2: string, n: nat)
    requires n <= |pre + quoted + g1 + [':'] + g2|
    ensures var q := |pre| + |quoted|;
            (pre + quoted + g1 + [':'] + g2)[..n] ==
              if n <= |pre| then pre[..n]
              else if n < q then pre + quoted[..n - |pre|]
              else if n <= q + |g1| then pre + quoted + g1[..n - q]
              else pre + quoted + g1 + [':'] + g2[..n - q - |g1| - 1]
  {}

  lemma TakeBoxed(open: char, t: string, close: char, m: nat)
    requires m <= |t|
    ensures ([open] + t + [close])[..m + 1] == [open] + t[..m]
  {}

  lemma TakeQuoted(t: string, m: nat)
    requires m <= |t|
    ensures (['"'] + t + ['"'])[..m + 1] == ['"'] + t[..m]
  {}

  /** A cut says exactly which characters are left. */
  lemma {:induction false} CutValueText(v: Value, n: nat)
    requires ValueOk(v) && 0 < n <= |Text(v)|
    ensures CutOk(CutValue(v, n)) && CutText(CutValue(v, n)) == Text(v)[..n]
    decreases v
  {
    if n < |Text(v)| {
      match v
      case VScalar(t) =>
      case VString(es) =>
        CutElemsText(es, n - 1);
        TakeQuoted(ElemsText(es), n - 1);
      case VBox(k, pad, es) =>
        if es.Nil? {
          CutEmptyBox(k, pad, n);
        } else {
          CutEntriesText(k, es, n - 1);
          TakeBoxed(Opener(k), EntriesText(es), Closer(k), n - 1);
        }
    }
  }

  lemma CutEmptyBox(k: Kind, pad: string, n: nat)
    requires AllWs(pad) && 0 < n < |pad| + 2
    ensures var (v, cut) := (VBox(k, pad, Nil), CutValue(VBox(k, pad, Nil), n));
            CutOk(cut) && CutText(cut) == Text(v)[..n]
  {
    TakeBoxed(Opener(k), pad, Closer(k), n - 1);
    assert CutText(CutValue(VBox(k, pad, Nil), n)) == [Opener(k)] + LastText(Fresh(pad[..n - 1]));
  }

  lemma {:induction false} CutEntriesText(k: Kind, es: Entries, n: nat)
    requires EntriesOk(k, es) && es.Cons? && n <= |EntriesText(es)|
    ensures BodyOk(k, CutEntries(es, n)) && BodyText(CutEntries(es, n)) == EntriesText(es)[..n]
    decreases es, 1
  {
    var l := |LeadText(es.head.lead)|;
    var v := l + |Text(es.head.value)|;
    CutEntriesIs(es, n);
    if n <= l {
      CutInLead(k, es, n);
    } else if n <= v {
      CutInValue(k, es, n - l);
    } else if n <= v + |es.head.post| {
      CutInPost(k, es, n - v);
    } else {
      var m := CutEntriesBehind(es, n);
      CutAfterComma(k, es, m);
    }
  }

  lemma CutEntriesIs(es: Entries, n: nat)
    requires es.Cons? && n <= |EntriesText(es)|
    ensures var (e, l) := (es.head, |LeadText(es.head.lead)|);
            var v := l + |Text(e.value)|;
            && (n <= l ==> CutEntries(es, n) == Here(CutLead(e.lead, n)))
            && (l < n <= v ==> CutEntries(es, n) == Here(InValue(e.lead, CutValue(e.value, n - l), "")))
            && (v < n <= v + |e.post| ==> CutEntries(es, n) == Here(InValue(e.lead, Whole(e.value), e.post[..n - v])))
  {}

  lemma CutInLead(k: Kind, es: Entries, n: nat)
    requires EntriesOk(k, es) && es.Cons? && n <= |LeadText(es.head.lead)|
    ensures var b := Here(CutLead(es.head.lead, n));
            BodyOk(k, b) && n <= |EntriesText(es)| && BodyText(b) == EntriesText(es)[..n]
  {
    var lead := es.head.lead;
    CutLeadText(k, lead, n);
  }

  lemma CutInPost(k: Kind, es: Entries, m: nat)
    requires EntriesOk(k, es) && es.Cons? && m <= |es.head.post|
    ensures var e := es.head;
            var b, n := Here(InValue(e.lead, Whole(e.value), e.post[..m])), |LeadText(e.lead)| + |Text(e.value)| + m;
            BodyOk(k, b) && n <= |EntriesText(es)| && BodyText(b) == EntriesText(es)[..n]
  {
    var e := es.head;
    var cut := InValue(e.lead, Whole(e.value), e.post[..m]);
    assert LastOk(k, cut);
    var t := LeadText(e.lead) + Text(e.value) + e.post[..m];
    assert LastText(cut) == t;
    assert t <= LeadText(e.lead) + Text(e.value) + e.post;
  }

  lemma {:induction false} CutInValue(k: Kind, es: Entries, m: nat)
    requires EntriesOk(k, es) && es.Cons? && 0 < m <= |Text(es.head.value)|
    ensures var b, n := Here(InValue(es.head.lead, CutValue(es.head.value, m), "")), |LeadText(es.head.lead)| + m;
            BodyOk(k, b) && n <= |EntriesText(es)| && BodyText(b) == EntriesText(es)[..n]
    decreases es, 0
  {
    var Entry(lead, value, _) := es.head;
    CutValueText(value, m);
    var t := LeadText(lead) + Text(value)[..m];
    assert t + "" == t;
  }

  lemma {:induction false} CutAfterComma(k: Kind, es: Entries, m: nat)
    requires EntriesOk(k, es) && es.Cons? && es.tail.Cons? && m <= |EntriesText(es.tail)|
    ensures var b, n := More(es.head, CutEntries(es.tail, m)), |EntriesText(es)| - |EntriesText(es.tail)| + m;
            BodyOk(k, b) && BodyText(b) == EntriesText(es)[..n]
    decreases es, 0
  {
    var Entry(lead, value, post) := es.head;
    CutEntriesText(k, es.tail, m);
    var t := LeadText(lead) + Text(value) + post + [','];
    assert EntriesText(es) == t + EntriesText(es.tail);
    assert (t + EntriesText(es.tail))[..|t| + m] == t + EntriesText(es.tail)[..m];
  }

  // ------------------------------------------------------------ where a cut falls

  /** The innermost place of a cut. */
  datatype Tip =
    | AfterValue
    | InsideScalar(text: string)
    | InsideString(escape: string)
    | AfterOpener(kind: Kind)
    | AfterComma(kind: Kind)
    | InsideName(escape: string)
    | AfterName
    | AfterNameColon

  function TipOf(c: Cut): Tip
    decreases c
  {
    match c
    case Whole(_) => AfterValue
    case InScalar(t) => InsideScalar(t)
    case InString(_, esc) => InsideString(esc)
    case InBox(k, b) => BodyTip(k, true, b)
  }

  function BodyTip(k: Kind, first: bool, b: Body): Tip
    decreases b
  {
    match b
    case More(_, rest) => BodyTip(k, false, rest)
    case Here(last) => LastTip(k, first, last)
  }

  function LastTip(k: Kind, first: bool, last: Last): Tip
    decreases last
  {
    match last
    case Fresh(_) => if first then AfterOpener(k) else AfterComma(k)
    case InKey(_, _, esc) => InsideName(esc)
    case AfterKey(_, _, _) => AfterName
    case AfterColon(_, _, _, _) => AfterNameColon
    case InValue(_, c, _) => TipOf(c)
  }

  /** The cuts that repair can mend: a caller can tell by looking at where the text stops. */
  predicate Mendable(t: Tip) {
    match t
    case AfterValue => true
    case InsideScalar(text) => IsScalar(text)
    case InsideString(esc) => esc == ""
    case AfterOpener(_) => true
    case AfterComma(k) => k == Array
    case InsideName(_) => false
    case AfterName => false
    case AfterNameColon => true
  }

  /** The tree of what is left, a missing value being null. */
  function Kept(c: Cut): Option<Json>
    requires CutOk(c)
    decreases c
  {
    match c
    case Whole(v) => Some(Tree(v))
    case InScalar(t) => if IsScalar(t) then Some(JScalar(t)) else None
    case InString(es, esc) => if esc == "" then Some(JString(ElemsValue(es))) else None
    case InBox(k, b) =>
      match KeptFields(k, true, b)
      case None => None
      case Some(fs) => Some(JBox(k, fs))
  }

  function KeptFields(k: Kind, first: bool, b: Body): Option<seq<Field>>
    requires BodyOk(k, b)
    decreases b
  {
    match b
    case More(e, rest) =>
      (match KeptFields(k, false, rest)
       case None => None
       case Some(fs) => Some([Field(LeadKey(k, e.lead), Tree(e.value))] + fs))
    case Here(last) => KeptLast(k, first, last)
  }

  function KeptLast(k: Kind, first: bool, last: Last): Option<seq<Field>>
    requires LastOk(k, last)
    decreases last
  {
    match last
    case Fresh(_) =>
      if first then Some([]) else if k == Array then Some([Field([], JScalar("null"))]) else None
    case InKey(_, _, _) => None
    case AfterKey(_, _, _) => None
    case AfterColon(_, key, _, _) => Some([Field(ElemsValue(key), JScalar("null"))])
    case InValue(lead, c, _) =>
      (match Kept(c)
       case None => None
       case Some(t) => Some([Field(LeadKey(k, lead), t)]))
  }

  lemma {:induction false} KeptWhenMendable(c: Cut)
    requires CutOk(c)
    ensures Kept(c).Some? <==> Mendable(TipOf(c))
    decreases c
  {
    if c.InBox? { FieldsKeptWhenMendable(c.kind, true, c.body); }
  }

  lemma {:induction false} FieldsKeptWhenMendable(k: Kind, first: bool, b: Body)
    requires BodyOk(k, b)
    ensures KeptFields(k, first, b).Some? <==> Mendable(BodyTip(k, first, b))
    decreases b
  {
    match b
    case More(_, rest) => FieldsKeptWhenMendable(k, false, rest);
    case Here(last) => if last.InValue? { KeptWhenMendable(last.cut); }
  }

  // ------------------------------------- what is kept is a truncation of the tree

  /** `cut` is `full` with everything after one place dropped: all but the last entry
      of a container are untouched, and the last is untouched, truncated, or null. */
  ghost predicate Truncates(full: Json, cut: Json)
    decreases cut
  {
    match cut
    case JScalar(t) => full.JScalar? && t <= full.text
    case JString(u) => full.JString? && u <= full.units
    case JBox(k, fs) =>
      && full.JBox? && full.kind == k && |fs| <= |full.fields|
      && (forall i | 0 <= i < |fs| - 1 :: fs[i] == full.fields[i])
      && (fs != [] ==>
            var (last, orig) := (fs[|fs| - 1], full.fields[|fs| - 1]);
            && last.key == orig.key
            && (last.value == orig.value || last.value == JScalar("null") || Truncates(orig.value, last.value)))
  }

  lemma {:induction false} CutElemsKeepPrefix(es: seq<Elem>, n: nat)
    requires ElemsOk(es) && n <= |ElemsText(es)|
    ensures ElemsOk(CutElems(es, n).0) && ElemsValue(CutElems(es, n).0) <= ElemsValue(es)
  {
    CutElemsText(es, n);
    if es != [] && n >= |ElemText(es[0])| {
      CutElemsKeepPrefix(es[1..], n - |ElemText(es[0])|);
      CutElemsText(es[1..], n - |ElemText(es[0])|);
      var (more, esc) := CutElems(es[1..], n - |ElemText(es[0])|);
      assert ([es[0]] + more)[1..] == more;
    }
  }

  lemma {:induction false} KeptTruncates(v: Value, n: nat)
    requires ValueOk(v) && 0 < n <= |Text(v)| && CutOk(CutValue(v, n))
    ensures Kept(CutValue(v, n)).Some? ==>
              Kept(CutValue(v, n)).value == Tree(v) || Truncates(Tree(v), Kept(CutValue(v, n)).value)
    decreases v
  {
    if n < |Text(v)| && Kept(CutValue(v, n)).Some? {
      match v
      case VScalar(t) =>
      case VString(es) => CutElemsKeepPrefix(es, n - 1);
      case VBox(k, pad, es) =>
        if es.Cons? {
          KeptFieldsTruncate(k, true, es, n - 1);
        } else {
          assert KeptLast(k, true, Fresh(pad[..n - 1])) == Some([]);
          assert Kept(CutValue(v, n)) == Some(JBox(k, []));
        }
    }
  }

  /** What a body keeps is a truncation of the entries. */
  ghost predicate CutsDown(k: Kind, first: bool, es: Entries, b: Body)
    requires EntriesOk(k, es) && BodyOk(k, b)
  {
    KeptFields(k, first, b).Some? ==>
      Truncates(JBox(k, EntriesTree(k, es)), JBox(k, KeptFields(k, first, b).value))
  }

  lemma {:induction false} KeptFieldsTruncate(k: Kind, first: bool, es: Entries, n: nat)
    requires EntriesOk(k, es) && es.Cons? && n <= |EntriesText(es)| && BodyOk(k, CutEntries(es, n))
    ensures CutsDown(k, first, es, CutEntries(es, n))
    decreases es, 1
  {
    var l := |LeadText(es.head.lead)|;
    var v := l + |Text(es.head.value)|;
    CutEntriesIs(es, n);
    if n <= l {
      CutsAtLead(k, first, es, n);
    } else if n <= v + |es.head.post| {
      CutsHere(k, first, es, n, CutEntries(es, n).last);
    } else {
      var m := CutEntriesBehind(es, n);
      CutsAfterComma(k, first, es, m);
    }
  }

  lemma {:induction false} CutsHere(k: Kind, first: bool, es: Entries, n: nat, last: Last)
    requires EntriesOk(k, es) && es.Cons? && n <= |EntriesText(es)| && CutEntries(es, n) == Here(last)
    requires LastOk(k, last) && BodyOk(k, Here(last)) && |LeadText(es.head.lead)| < n
    ensures CutsDown(k, first, es, Here(last))
    decreases es, 0
  {
    var m := n - |LeadText(es.head.lead)|;
    CutEntriesIs(es, n);
    if m <= |Text(es.head.value)| { KeptTruncates(es.head.value, m); }
    CutsInValue(k, first, es, last.cut, last.post);
  }

  lemma {:induction false} CutsAfterComma(k: Kind, first: bool, es: Entries, m: nat)
    requires EntriesOk(k, es) && es.Cons? && es.tail.Cons? && m <= |EntriesText(es.tail)|
    requires BodyOk(k, More(es.head, CutEntries(es.tail, m)))
    ensures CutsDown(k, first, es, More(es.head, CutEntries(es.tail, m)))
    decreases es, 0
  {
    KeptFieldsTruncate(k, false, es.tail, m);
  }

  lemma CutEntriesBehind(es: Entries, n: nat) returns (m: nat)
    requires es.Cons? && |LeadText(es.head.lead)| + |Text(es.head.value)| + |es.head.post| < n <= |EntriesText(es)|
    ensures es.tail.Cons? && m <= |EntriesText(es.tail)| && CutEntries(es, n) == More(es.head, CutEntries(es.tail, m))
    ensures n == |EntriesText(es)| - |EntriesText(es.tail)| + m
  {
    m := n - |LeadText(es.head.lead)| - |Text(es.head.value)| - |es.head.post| - 1;
  }

  lemma CutsAtLead(k: Kind, first: bool, es: Entries, n: nat)
    requires EntriesOk(k, es) && es.Cons? && n <= |LeadText(es.head.lead)|
    requires BodyOk(k, Here(CutLead(es.head.lead, n)))
    ensures CutsDown(k, first, es, Here(CutLead(es.head.lead, n)))
  {}

  lemma CutsInValue(k: Kind, first: bool, es: Entries, c: Cut, post: string)
    requires EntriesOk(k, es) && es.Cons? && BodyOk(k, Here(InValue(es.head.lead, c, post))) && CutOk(c)
    requires Kept(c).Some? ==> Kept(c).value == Tree(es.head.value) || Truncates(Tree(es.head.value), Kept(c).value)
    ensures CutsDown(k, first, es, Here(InValue(es.head.lead, c, post)))
  {}

  // ----------------------------------------------- what the scanner makes of a cut

  function Stack(c: Cut): string {
    if c.InBox? then [Closer(c.kind)] + BodyStack(c.body) else ""
  }

  function BodyStack(b: Body): string {
    match b
    case More(_, rest) => BodyStack(rest)
    case Here(last) => if last.InValue? then Stack(last.cut) else ""
  }

  predicate TipInString(t: Tip) { t.InsideString? || t.InsideName? }

  predicate TipInEscape(t: Tip) { TipInString(t) && EndsInBackslash(t.escape) }

  predicate EndsInBackslash(e: string) { e != "" && e[|e| - 1] == '\\' }

  predicate Idle(q: Scanner) { !q.inString && !q.escapeNext }

  function In(q: Scanner, t: Tip, more: string): Scanner {
    Scanner(q.stack + more, TipInString(t), TipInEscape(t))
  }

  /** White space, literals and numbers leave the scanner as it was. */
  lemma WsScan(q: Scanner, t: string)
    requires (AllWs(t) || AllScalarChars(t)) && Idle(q)
    ensures Scan(q, t) == q
  {
    assert forall i | 0 <= i < |t| :: IsWs(t[i]) || IsScalarChar(t[i]);
    InertScan(q, t);
  }

  lemma ScanElem(q: Scanner, e: Elem)
    requires ElemOk(e) && q.inString && !q.escapeNext
    ensures Scan(q, ElemText(e)) == q
  {
    match e
    case Plain(c) =>
    case Short(c) => assert ElemText(e)[1..] == [c];
    case Hex(h) => ScanUnit(q, h);
    case Pair(hi, lo) =>
      ScanUnit(q, hi);
      ScanUnit(q, lo);
      ScanConcat(q, "\\u" + hi, "\\u" + lo);
  }

  lemma {:induction false} ScanHex(q: Scanner, h: string)
    requires AllHex(h) && q.inString && !q.escapeNext
    ensures Scan(q, h) == q
  {
    if h != "" { ScanHex(q, h[1..]); }
  }

  lemma {:induction false} ScanElems(q: Scanner, es: seq<Elem>)
    requires ElemsOk(es) && q.inString && !q.escapeNext
    ensures Scan(q, ElemsText(es)) == q
  {
    if es != [] {
      ScanElem(q, es[0]);
      ScanConcat(q, ElemText(es[0]), ElemsText(es[1..]));
      ScanElems(q, es[1..]);
    }
  }

  lemma ScanOpenString(q: Scanner, es: seq<Elem>, esc: string)
    requires ElemsOk(es) && PartialEscape(esc) && Idle(q)
    ensures Scan(q, ['"'] + (ElemsText(es) + esc)) == Scanner(q.stack, true, EndsInBackslash(esc))
  {
    var q1 := q.(inString := true);
    var t := ElemsText(es) + esc;
    assert (['"'] + t)[1..] == t;
    ScanConcat(q1, ElemsText(es), esc);
    ScanElems(q1, es);
    ScanEscape(q1, esc);
  }

  lemma ScanUnit(q: Scanner, h: string)
    requires AllHex(h) && q.inString && !q.escapeNext
    ensures Scan(q, "\\u" + h) == q
  {
    var t := "\\u" + h;
    assert t[1..] == ['u'] + h && (['u'] + h)[1..] == h;
    ScanHex(q, h);
  }

  lemma ScanPartialUnit(q: Scanner, e: string)
    requires PartialUnit(e) && q.inString && !q.escapeNext
    ensures Scan(q, e) == q.(escapeNext := EndsInBackslash(e))
  {
    if |e| >= 2 {
      assert e == "\\u" + e[2..];
      ScanUnit(q, e[2..]);
    } else if e == "\\" {
      assert e[1..] == "";
    }
  }

  lemma ScanEscape(q: Scanner, esc: string)
    requires PartialEscape(esc) && q.inString && !q.escapeNext
    ensures Scan(q, esc) == q.(escapeNext := EndsInBackslash(esc))
  {
    if PartialUnit(esc) {
      ScanPartialUnit(q, esc);
    } else {
      assert esc == ("\\u" + esc[2..6]) + esc[6..];
      ScanUnit(q, esc[2..6]);
      ScanConcat(q, "\\u" + esc[2..6], esc[6..]);
      ScanPartialUnit(q, esc[6..]);
    }
  }

  lemma ScanQuoted(q: Scanner, es: seq<Elem>)
    requires ElemsOk(es) && Idle(q)
    ensures Scan(q, QuotedText(es)) == q
  {
    ScanOpenString(q, es, "");
    assert ['"'] + (ElemsText(es) + "") == ['"'] + ElemsText(es);
    ScanConcat(q, ['"'] + ElemsText(es), ['"']);
  }

  lemma ScanLead(q: Scanner, k: Kind, l: Lead)
    requires LeadOk(k, l) && Idle(q)
    ensures Scan(q, LeadText(l)) == q
  {
    WsScan(q, l.pre);
    if l.Named? {
      var quoted := QuotedText(l.key);
      ScanConcat(q, l.pre, quoted);
      ScanQuoted(q, l.key);
      WsScan(q, l.gap1);
      InertScan(q, [':']);
      WsScan(q, l.gap2);
      ScanConcat(q, l.pre + quoted, l.gap1);
      ScanConcat(q, l.pre + quoted + l.gap1, [':']);
      ScanConcat(q, l.pre + quoted + l.gap1 + [':'], l.gap2);
    }
  }

  /** A whole value leaves the scanner as it was. */
  lemma {:induction false} ScanValue(q: Scanner, v: Value)
    requires ValueOk(v) && Idle(q)
    ensures Scan(q, Text(v)) == q
    decreases v
  {
    match v
    case VScalar(t) => WsScan(q, t);
    case VString(es) => ScanQuoted(q, es);
    case VBox(k, pad, es) =>
      var q1 := q.(stack := q.stack + [Closer(k)]);
      if es.Nil? { WsScan(q1, pad); } else { ScanEntries(q1, k, es); }
      ScanBoxed(q, k, if es.Nil? then pad else EntriesText(es));
  }

  lemma ScanBoxed(q: Scanner, k: Kind, inner: string)
    requires Idle(q)
    requires var q1 := q.(stack := q.stack + [Closer(k)]); Scan(q1, inner) == q1
    ensures Scan(q, [Opener(k)] + inner + [Closer(k)]) == q
  {
    StepBox(q, k);
    ScanConcat(q, [Opener(k)] + inner, [Closer(k)]);
  }

  lemma StepBox(q: Scanner, k: Kind)
    requires Idle(q)
    ensures var q1 := q.(stack := q.stack + [Closer(k)]); Step(q, Opener(k)) == q1 && Step(q1, Closer(k)) == q
  {
    assert (q.stack + [Closer(k)])[..|q.stack|] == q.stack;
  }

  lemma {:induction false} ScanEntries(q: Scanner, k: Kind, es: Entries)
    requires EntriesOk(k, es) && Idle(q)
    ensures Scan(q, EntriesText(es)) == q
    decreases es
  {
    if es.Cons? {
      ScanEntry(q, k, es.head);
      var e := es.head;
      var t := EntryText(e);
      if es.tail.Nil? {
        assert EntriesText(es) == t;
      } else {
        var more := EntriesText(es.tail);
        assert EntriesText(es) == t + ([','] + more);
        ScanConcat(q, t, [','] + more);
        assert ([','] + more)[1..] == more;
        ScanEntries(q, k, es.tail);
      }
    }
  }

  lemma {:induction false} ScanEntry(q: Scanner, k: Kind, e: Entry)
    requires EntryOk(k, e) && Idle(q)
    ensures Scan(q, EntryText(e)) == q
    decreases e, 1
  {
    ScanLead(q, k, e.lead);
    ScanValue(q, e.value);
    ScanConcat(q, LeadText(e.lead), Text(e.value));
    WsScan(q, e.post);
    ScanConcat(q, LeadText(e.lead) + Text(e.value), e.post);
  }

  /** The scanner's stack holds the closers of exactly the containers a cut leaves
      open, and its flags tell whether the cut is in a string and after a backslash. */
  lemma {:induction false} ScanCut(q: Scanner, c: Cut)
    requires CutOk(c) && Idle(q)
    ensures Scan(q, CutText(c)) == In(q, TipOf(c), Stack(c))
    decreases c
  {
    assert q.stack + "" == q.stack;
    match c
    case Whole(v) => ScanValue(q, v);
    case InScalar(t) => WsScan(q, t);
    case InString(es, esc) => ScanOpenString(q, es, esc);
    case InBox(k, b) =>
      var q1 := q.(stack := q.stack + [Closer(k)]);
      assert CutText(c)[1..] == BodyText(b);
      ScanBody(q1, k, true, b);
      assert q1.stack + BodyStack(b) == q.stack + Stack(c);
  }

  lemma {:induction false} ScanBody(q: Scanner, k: Kind, first: bool, b: Body)
    requires BodyOk(k, b) && Idle(q)
    ensures Scan(q, BodyText(b)) == In(q, BodyTip(k, first, b), BodyStack(b))
    decreases b
  {
    assert q.stack + "" == q.stack;
    match b
    case More(e, rest) =>
      ScanEntry(q, k, e);
      assert BodyText(b) == EntryText(e) + ([','] + BodyText(rest));
      ScanConcat(q, EntryText(e), [','] + BodyText(rest));
      assert ([','] + BodyText(rest))[1..] == BodyText(rest);
      ScanBody(q, k, false, rest);
    case Here(last) => ScanLast(q, k, first, last);
  }

  lemma {:induction false} ScanLast(q: Scanner, k: Kind, first: bool, last: Last)
    requires LastOk(k, last) && Idle(q)
    ensures Scan(q, LastText(last)) == In(q, LastTip(k, first, last), BodyStack(Here(last)))
    decreases last
  {
    assert q.stack + "" == q.stack;
    match last
    case Fresh(ws) => WsScan(q, ws);
    case InKey(pre, es, esc) =>
      WsScan(q, pre);
      ScanConcat(q, pre, ['"'] + (ElemsText(es) + esc));
      ScanOpenString(q, es, esc);
    case AfterKey(pre, key, ws) =>
      WsScan(q, pre);
      ScanConcat(q, pre, QuotedText(key));
      ScanQuoted(q, key);
      WsScan(q, ws);
      ScanConcat(q, pre + QuotedText(key), ws);
    case AfterColon(pre, key, gap, ws) => ScanLead(q, k, Named(pre, key, gap, ws));
    case InValue(lead, c, post) =>
      ScanLead(q, k, lead);
      ScanCut(q, c);
      ScanConcat(q, LeadText(lead), CutText(c));
      if post != "" { WsScan(In(q, TipOf(c), Stack(c)), post); }
      ScanConcat(q, LeadText(lead) + CutText(c), post);
  }
}
