/** Template rendering (src/query_templates.rs): a loop of string replacements,
    against the substitution it is meant to be. */
module QueryTemplates {
  import opened Wrappers

  /** Rust's `str::replace` for a non-empty pattern: left to right, not overlapping. */
  function Replace(s: string, pat: string, sub: string): string
    requires pat != ""
    decreases |s|
  {
    if s == "" then ""
    else if pat <= s then sub + Replace(s[|pat|..], pat, sub)
    else [s[0]] + Replace(s[1..], pat, sub)
  }

  predicate Contains(s: string, pat: string)
    decreases |s|
  {
    pat <= s || (s != "" && Contains(s[1..], pat))
  }

  function Placeholder(key: string): string { ['{'] + key + ['}'] }

  datatype Template = Template(pattern: string, required: seq<string>, optional: map<string, string>)

  datatype Rendered = Rendered(text: string) | Missing(name: string) | Unresolved

  type Vars = seq<(string, string)>

  predicate Given(vars: Vars, key: string) { exists i | 0 <= i < |vars| :: vars[i].0 == key }

  /** The value of the first variable of that name. */
  function FirstOf(vars: Vars, key: string): string
    requires Given(vars, key)
  {
    if vars[0].0 == key then vars[0].1
    else
      assert Given(vars[1..], key) by {
        var i :| 0 <= i < |vars| && vars[i].0 == key;
        assert vars[1..][i - 1].0 == key;
      }
      FirstOf(vars[1..], key)
  }

  function FirstMissing(required: seq<string>, vars: Vars): Option<string> {
    if required == [] then None
    else if !Given(vars, required[0]) then Some(required[0])
    else FirstMissing(required[1..], vars)
  }

  function SubstituteVars(s: string, vars: Vars): string
    decreases |vars|
  {
    if vars == [] then s else SubstituteVars(Replace(s, Placeholder(vars[0].0), vars[0].1), vars[1..])
  }

  /** The defaults, in the order in which the hash map yields its keys. */
  function SubstituteDefaults(s: string, optional: map<string, string>, order: seq<string>): string
    requires forall i | 0 <= i < |order| :: order[i] in optional
    decreases |order|
  {
    if order == [] then s
    else
      var p := Placeholder(order[0]);
      SubstituteDefaults(if Contains(s, p) then Replace(s, p, optional[order[0]]) else s, optional, order[1..])
  }

  ghost predicate Enumerates(order: seq<string>, keys: set<string>) {
    && (forall k :: k in order <==> k in keys)
    && (forall i, j | 0 <= i < j < |order| :: order[i] != order[j])
  }

  /** Rendering, given the hash map's order. */
  function RenderIn(t: Template, vars: Vars, order: seq<string>): Rendered
    requires forall i | 0 <= i < |order| :: order[i] in t.optional
  {
    var missing := FirstMissing(t.required, vars);
    if missing.Some? then Missing(missing.value)
    else
      var s := SubstituteDefaults(SubstituteVars(t.pattern, vars), t.optional, order);
      if '{' in s && '}' in s then Unresolved else Rendered(s)
  }

  ghost predicate RendersIn(t: Template, vars: Vars, order: seq<string>, r: Rendered) {
    Enumerates(order, t.optional.Keys) && r == RenderIn(t, vars, order)
  }

  /** The source's loops; which key the hash map yields next is left open. */
  method Render(t: Template, vars: Vars) returns (r: Rendered)
    ensures exists order :: RendersIn(t, vars, order, r)
  {
    var result := t.pattern;
    ghost var order := SomeOrder(t.optional.Keys);
    for i := 0 to |t.required|
      invariant FirstMissing(t.required[i..], vars) == FirstMissing(t.required, vars)
    {
      assert t.required[i..][1..] == t.required[i + 1..];
      if !(exists j | 0 <= j < |vars| :: vars[j].0 == t.required[i]) {
        r := Missing(t.required[i]);
        assert RendersIn(t, vars, order, r);
        return;
      }
    }
    for i := 0 to |vars|
      invariant SubstituteVars(result, vars[i..]) == SubstituteVars(t.pattern, vars)
    {
      assert vars[i..][1..] == vars[i + 1..];
      var placeholder := ['{'] + vars[i].0 + ['}'];
      result := Replace(result, placeholder, vars[i].1);
    }
    ghost var substituted := result;
    order := [];
    var left := t.optional.Keys;
    while left != {}
      invariant left <= t.optional.Keys
      invariant Enumerates(order, t.optional.Keys - left)
      invariant forall i | 0 <= i < |order| :: order[i] in t.optional
      invariant result == SubstituteDefaults(substituted, t.optional, order)
      decreases left
    {
      var key :| key in left;
      left := left - {key};
      AppendDefault(substituted, t.optional, order, key);
      var placeholder := ['{'] + key + ['}'];
      if Contains(result, placeholder) {
        result := Replace(result, placeholder, t.optional[key]);
      }
      order := order + [key];
    }
    assert t.optional.Keys - left == t.optional.Keys;
    r := if '{' in result && '}' in result then Unresolved else Rendered(result);
    assert RendersIn(t, vars, order, r);
  }

  lemma {:induction false} AppendDefault(s: string, optional: map<string, string>, order: seq<string>, key: string)
    requires (forall i | 0 <= i < |order| :: order[i] in optional) && key in optional
    ensures var r, p := SubstituteDefaults(s, optional, order), Placeholder(key);
            SubstituteDefaults(s, optional, order + [key]) == if Contains(r, p) then Replace(r, p, optional[key]) else r
    decreases |order|
  {
    if order != [] {
      var p := Placeholder(order[0]);
      var s2 := if Contains(s, p) then Replace(s, p, optional[order[0]]) else s;
      assert (order + [key])[1..] == order[1..] + [key];
      AppendDefault(s2, optional, order[1..], key);
    }
  }

  lemma {:induction false} SomeOrder(keys: set<string>) returns (order: seq<string>)
    ensures Enumerates(order, keys)
    decreases keys
  {
    if keys == {} {
      order := [];
    } else {
      var k :| k in keys;
      var rest := SomeOrder(keys - {k});
      order := [k] + rest;
    }
  }

  /** render_map: the variables come out of a hash map, in whatever order. */
  method RenderMap(t: Template, vars: map<string, string>) returns (r: Rendered)
    ensures exists list, order :: EnumeratesMap(list, vars) && RendersIn(t, list, order, r)
  {
    var list: Vars := [];
    var left := vars.Keys;
    while left != {}
      invariant left <= vars.Keys
      invariant forall k :: k in vars && k !in left <==> Given(list, k)
      invariant forall i | 0 <= i < |list| :: list[i].0 in vars && list[i].1 == vars[list[i].0]
      invariant forall i, j | 0 <= i < j < |list| :: list[i].0 != list[j].0
      decreases left
    {
      var key :| key in left;
      assert !Given(list, key);
      ghost var before := list;
      left := left - {key};
      list := list + [(key, vars[key])];
      assert list[|before|].0 == key;
      assert forall i | 0 <= i < |before| :: list[i] == before[i];
    }
    r := Render(t, list);
    assert EnumeratesMap(list, vars);
  }

  ghost predicate EnumeratesMap(list: Vars, m: map<string, string>) {
    && (forall k :: k in m <==> Given(list, k))
    && (forall i | 0 <= i < |list| :: list[i].0 in m && list[i].1 == m[list[i].0])
    && (forall i, j | 0 <= i < j < |list| :: list[i].0 != list[j].0)
  }

  // ------------------------------------------------- simultaneous substitution

  /** A pattern read as literals and placeholders. */
  datatype Piece = Lit(text: string) | Hole(key: string)

  predicate BraceFree(s: string) { forall i | 0 <= i < |s| :: s[i] != '{' && s[i] != '}' }

  /** The names of the placeholders are free of braces. */
  predicate NamesOk(ps: seq<Piece>) { forall i | 0 <= i < |ps| && ps[i].Hole? :: BraceFree(ps[i].key) }

  /** No literal contains c. */
  predicate LitsLack(ps: seq<Piece>, c: char) { forall i | 0 <= i < |ps| && ps[i].Lit? :: c !in ps[i].text }

  predicate IsBrace(c: char) { c == '{' || c == '}' }

  function PieceText(p: Piece): string { if p.Lit? then p.text else Placeholder(p.key) }

  function Flatten(ps: seq<Piece>): string {
    if ps == [] then "" else PieceText(ps[0]) + Flatten(ps[1..])
  }

  /** What one placeholder becomes: the first variable of that name, or else the
      default, or else itself. */
  function Chosen(key: string, vars: Vars, optional: map<string, string>): Piece {
    if Given(vars, key) then Lit(FirstOf(vars, key))
    else if key in optional then Lit(optional[key])
    else Hole(key)
  }

  /** All placeholders at once. */
  function OnePass(ps: seq<Piece>, vars: Vars, optional: map<string, string>): seq<Piece> {
    seq(|ps|, i requires 0 <= i < |ps| => if ps[i].Hole? then Chosen(ps[i].key, vars, optional) else ps[i])
  }

  predicate Resolved(ps: seq<Piece>) { forall i | 0 <= i < |ps| :: ps[i].Lit? }

  /** The placeholders of one key, filled in. */
  function FillKey(ps: seq<Piece>, key: string, sub: string): seq<Piece> {
    seq(|ps|, i requires 0 <= i < |ps| => if ps[i] == Hole(key) then Lit(sub) else ps[i])
  }

  lemma FillKeyCons(ps: seq<Piece>, key: string, sub: string)
    requires ps != []
    ensures FillKey(ps, key, sub)[0] == (if ps[0] == Hole(key) then Lit(sub) else ps[0])
    ensures FillKey(ps, key, sub)[1..] == FillKey(ps[1..], key, sub)
  {}

  predicate NoMatchIn(t: string, rest: string, pat: string) {
    forall i | 0 <= i < |t| :: !(pat <= t[i..] + rest)
  }

  /** Text that no match begins in is passed over. */
  lemma {:induction false} ReplacePasses(t: string, rest: string, pat: string, sub: string)
    requires pat != "" && NoMatchIn(t, rest, pat)
    ensures Replace(t + rest, pat, sub) == t + Replace(rest, pat, sub)
    decreases |t|
  {
    if t == "" {
      assert t + rest == rest;
      assert t + Replace(rest, pat, sub) == Replace(rest, pat, sub);
    } else {
      assert t[0..] == t;
      assert forall i | 0 <= i < |t| - 1 :: t[1..][i..] == t[i + 1..];
      ReplacePasses(t[1..], rest, pat, sub);
      ReplaceStep(t[0], t[1..], rest, pat, sub);
      assert t == [t[0]] + t[1..];
    }
  }

  lemma ReplaceStep(c: char, t: string, rest: string, pat: string, sub: string)
    requires pat != "" && !(pat <= [c] + t + rest) && Replace(t + rest, pat, sub) == t + Replace(rest, pat, sub)
    ensures Replace([c] + t + rest, pat, sub) == [c] + t + Replace(rest, pat, sub)
  {
    assert ([c] + t + rest)[1..] == t + rest;
  }

  /** Nothing matches inside text without an opening brace. */
  lemma NoMatchClosed(t: string, rest: string, key: string)
    requires '{' !in t
    ensures NoMatchIn(t, rest, Placeholder(key))
  {
    forall i | 0 <= i < |t|
      ensures !(Placeholder(key) <= t[i..] + rest)
    {
      assert (t[i..] + rest)[0] == t[i] && Placeholder(key)[0] == '{';
    }
  }

  /** When no literal closes a brace, every closing brace has an opening one before it. */
  lemma {:induction false} OpensFirst(ps: seq<Piece>, m: nat) returns (j: nat)
    requires LitsLack(ps, '}') && m < |Flatten(ps)| && Flatten(ps)[m] == '}'
    ensures j < m && Flatten(ps)[j] == '{'
    decreases |ps|
  {
    var t := PieceText(ps[0]);
    if ps[0].Hole? {
      j := 0;
    } else {
      var rest := Flatten(ps[1..]);
      assert Flatten(ps) == t + rest && '}' !in t;
      assert (t + rest)[m] == '}' && m >= |t|;
      var k := OpensFirst(ps[1..], m - |t|);
      j := k + |t|;
    }
  }

  lemma OpensInside(t: string, ps: seq<Piece>, m: nat) returns (j: nat)
    requires '}' !in t && LitsLack(ps, '}') && m < |t + Flatten(ps)| && (t + Flatten(ps))[m] == '}'
    ensures |t| <= j < m && (t + Flatten(ps))[j] == '{'
  {
    assert forall i | 0 <= i < |t| :: (t + Flatten(ps))[i] == t[i];
    var k := OpensFirst(ps, m - |t|);
    j := |t| + k;
  }

  /** Nor does anything match inside text without a closing brace, as long as what
      follows closes no brace that it has not opened. */
  lemma NoMatchOpen(t: string, ps: seq<Piece>, key: string)
    requires '}' !in t && LitsLack(ps, '}') && BraceFree(key)
    ensures NoMatchIn(t, Flatten(ps), Placeholder(key))
  {
    forall i | 0 <= i < |t|
      ensures !(Placeholder(key) <= t[i..] + Flatten(ps))
    {
      NoMatchHere(t[i..], ps, key);
    }
  }

  lemma NoMatchHere(t: string, ps: seq<Piece>, key: string)
    requires t != "" && '}' !in t && LitsLack(ps, '}') && BraceFree(key)
    ensures !(Placeholder(key) <= t + Flatten(ps))
  {
    var s, p, m := t + Flatten(ps), Placeholder(key), |key| + 1;
    if p <= s {
      assert s[m] == p[m] == '}';
      assert forall i | 0 < i < m :: s[i] == p[i] == key[i - 1];
      var j := OpensInside(t, ps, m);
    }
  }

  /** Two placeholders match only if their keys are equal. */
  lemma PlaceholdersDiffer(k1: string, k2: string, rest: string)
    requires BraceFree(k1) && BraceFree(k2) && Placeholder(k1) <= Placeholder(k2) + rest
    ensures k1 == k2
  {
    var s := Placeholder(k2) + rest;
    var p := Placeholder(k1);
    assert s[|k2| + 1] == '}' && p[|k1| + 1] == '}';
    assert forall i | 0 <= i < |k1| :: p[i + 1] == k1[i];
    assert forall i | 0 <= i < |k2| :: s[i + 1] == k2[i];
    assert k1 == p[1..|k1| + 1] && k2 == s[1..|k2| + 1];
  }

  lemma ReplaceOtherHole(hole: string, rest: string, key: string, sub: string)
    requires BraceFree(hole) && BraceFree(key) && hole != key
    ensures Replace(Placeholder(hole) + rest, Placeholder(key), sub)
         == Placeholder(hole) + Replace(rest, Placeholder(key), sub)
  {
    var s := Placeholder(hole) + rest;
    if Placeholder(key) <= s { PlaceholdersDiffer(key, hole, rest); }
    var after := ['}'] + rest;
    assert s[1..] == hole + after;
    NoMatchClosed(hole, after, key);
    ReplacePasses(hole, after, Placeholder(key), sub);
    assert Placeholder(key)[0] == '{' && after[0] == '}';
    assert after[1..] == rest;
    var r := Replace(rest, Placeholder(key), sub);
    assert Replace(after, Placeholder(key), sub) == ['}'] + r;
    assert ['{'] + (hole + (['}'] + r)) == Placeholder(hole) + r;
  }

  /** One replacement fills exactly the placeholders of its key, when the literals lack
      one kind of brace.  What is filled in may be anything. */
  lemma {:induction false} ReplaceFills(ps: seq<Piece>, key: string, sub: string, c: char)
    requires NamesOk(ps) && IsBrace(c) && LitsLack(ps, c) && BraceFree(key)
    ensures Replace(Flatten(ps), Placeholder(key), sub) == Flatten(FillKey(ps, key, sub))
    decreases |ps|
  {
    if ps != [] {
      FillKeyCons(ps, key, sub);
      ReplaceFills(ps[1..], key, sub, c);
      var rest := Flatten(ps[1..]);
      if ps[0].Lit? {
        if c == '{' { NoMatchClosed(ps[0].text, rest, key); } else { NoMatchOpen(ps[0].text, ps[1..], key); }
        ReplacePasses(ps[0].text, rest, Placeholder(key), sub);
      } else if ps[0].key == key {
        assert (Placeholder(key) + rest)[|Placeholder(key)|..] == rest;
      } else {
        ReplaceOtherHole(ps[0].key, rest, key, sub);
      }
    }
  }

  lemma {:induction false} NotContained(s: string, pat: string, sub: string)
    requires pat != "" && !Contains(s, pat)
    ensures Replace(s, pat, sub) == s
    decreases |s|
  {
    if s != "" { NotContained(s[1..], pat, sub); }
  }

  predicate VarNamesOk(vars: Vars) { forall i | 0 <= i < |vars| :: BraceFree(vars[i].0) }

  predicate KeysOk(m: map<string, string>) { forall k | k in m :: BraceFree(k) }

  /** The pieces after the variables and then some of the defaults were filled in. */
  function VarsFilled(ps: seq<Piece>, vars: Vars): seq<Piece> { OnePass(ps, vars, map[]) }

  lemma {:induction false} VarsFill(ps: seq<Piece>, vars: Vars, c: char)
    requires NamesOk(ps) && VarNamesOk(vars) && IsBrace(c) && LitsLack(VarsFilled(ps, vars), c)
    ensures SubstituteVars(Flatten(ps), vars) == Flatten(VarsFilled(ps, vars)) && NamesOk(VarsFilled(ps, vars))
    decreases |vars|
  {
    KeepsLits(ps, VarsFilled(ps, vars), c);
    if vars == [] {
      assert VarsFilled(ps, vars) == ps;
    } else {
      var (key, sub) := vars[0];
      var ps2 := FillKey(ps, key, sub);
      assert VarsFilled(ps2, vars[1..]) == VarsFilled(ps, vars);
      ReplaceFills(ps, key, sub, c);
      VarsFill(ps2, vars[1..], c);
    }
  }

  /** Filling in keeps the literals that are there. */
  lemma KeepsLits(ps: seq<Piece>, filled: seq<Piece>, c: char)
    requires |filled| == |ps| && forall i | 0 <= i < |ps| && ps[i].Lit? :: filled[i] == ps[i]
    requires LitsLack(filled, c)
    ensures LitsLack(ps, c)
  {
    forall i | 0 <= i < |ps| && ps[i].Lit?
      ensures c !in ps[i].text
    {
      assert filled[i] == ps[i];
    }
  }

  /** The pieces after the defaults of some keys were filled in. */
  function DefaultsFilled(ps: seq<Piece>, optional: map<string, string>, keys: seq<string>): seq<Piece> {
    seq(|ps|, i requires 0 <= i < |ps| =>
      if ps[i].Hole? && ps[i].key in keys && ps[i].key in optional then Lit(optional[ps[i].key]) else ps[i])
  }

  lemma DefaultsFilledCons(ps: seq<Piece>, optional: map<string, string>, order: seq<string>)
    requires order != [] && order[0] in optional
    ensures DefaultsFilled(FillKey(ps, order[0], optional[order[0]]), optional, order[1..])
         == DefaultsFilled(ps, optional, order)
  {
    assert order == [order[0]] + order[1..];
  }

  lemma {:induction false} DefaultsFill(ps: seq<Piece>, optional: map<string, string>, order: seq<string>, c: char)
    requires NamesOk(ps) && KeysOk(optional) && IsBrace(c) && LitsLack(DefaultsFilled(ps, optional, order), c)
    requires forall i | 0 <= i < |order| :: order[i] in optional
    ensures SubstituteDefaults(Flatten(ps), optional, order) == Flatten(DefaultsFilled(ps, optional, order))
    decreases |order|
  {
    KeepsLits(ps, DefaultsFilled(ps, optional, order), c);
    if order == [] {
      assert DefaultsFilled(ps, optional, order) == ps;
    } else {
      var key := order[0];
      ReplaceFills(ps, key, optional[key], c);
      if !Contains(Flatten(ps), Placeholder(key)) { NotContained(Flatten(ps), Placeholder(key), optional[key]); }
      DefaultsFilledCons(ps, optional, order);
      DefaultsFill(FillKey(ps, key, optional[key]), optional, order[1..], c);
    }
  }

  predicate BothBraces(s: string) { '{' in s && '}' in s }

  /** A text lacks a brace only if everything is resolved and no literal has that brace. */
  lemma {:induction false} LackOf(ps: seq<Piece>, c: char)
    requires IsBrace(c)
    ensures c !in Flatten(ps) <==> Resolved(ps) && LitsLack(ps, c)
    decreases |ps|
  {
    if ps != [] {
      var t, rest := PieceText(ps[0]), Flatten(ps[1..]);
      LackOf(ps[1..], c);
      assert ps == [ps[0]] + ps[1..];
      assert c in Flatten(ps) <==> c in t || c in rest;
      if ps[0].Hole? { assert t[0] == '{' && t[|t| - 1] == '}'; }
    }
  }

  lemma {:induction false} MissingIff(required: seq<string>, vars: Vars)
    ensures FirstMissing(required, vars) == None <==> forall r | r in required :: Given(vars, r)
  {
    if required != [] {
      MissingIff(required[1..], vars);
      assert required == [required[0]] + required[1..];
    }
  }

  /** q is the first required variable that is not given. */
  ghost predicate FirstToMiss(required: seq<string>, vars: Vars, q: string) {
    exists i | 0 <= i < |required| ::
      required[i] == q && !Given(vars, q) && forall j | 0 <= j < i :: Given(vars, required[j])
  }

  lemma {:induction false} FirstMissingIs(required: seq<string>, vars: Vars, q: string)
    ensures FirstMissing(required, vars) == Some(q) <==> FirstToMiss(required, vars, q)
  {
    if required != [] {
      var rest := required[1..];
      FirstMissingIs(rest, vars, q);
      assert forall i | 0 < i < |required| :: required[i] == rest[i - 1];
      if Given(vars, required[0]) && FirstToMiss(rest, vars, q) {
        var i :| 0 <= i < |rest| && rest[i] == q && !Given(vars, q) && forall j | 0 <= j < i :: Given(vars, rest[j]);
        assert required[i + 1] == q;
      }
    }
  }

  /** How rendering fails: it names the first required variable that is not given, and it
      finds something unresolved only if none is missing. */
  lemma RenderFails(t: Template, vars: Vars, order: seq<string>, q: string)
    requires Enumerates(order, t.optional.Keys)
    ensures forall i | 0 <= i < |order| :: order[i] in t.optional
    ensures RenderIn(t, vars, order) == Missing(q) <==> FirstToMiss(t.required, vars, q)
    ensures RenderIn(t, vars, order).Unresolved? ==> forall r | r in t.required :: Given(vars, r)
  {
    assert forall i | 0 <= i < |order| :: order[i] in order;
    FirstMissingIs(t.required, vars, q);
    MissingIff(t.required, vars);
  }

  /** The text that substituting all placeholders at once gives. */
  function AtOnce(ps: seq<Piece>, vars: Vars, optional: map<string, string>): string {
    Flatten(OnePass(ps, vars, optional))
  }

  /** Sequential replacement is simultaneous substitution, exactly when the substituted
      text has not both kinds of braces.  For every pattern, all literals, values and
      defaults, with brace-free names, and for every order in which the hash map yields
      the defaults: rendering gives the pattern with all placeholders substituted at
      once, the first of duplicate names winning, if and only if all required variables
      are given and that text lacks one kind of brace. */
  lemma RendersAtOnceIff(t: Template, ps: seq<Piece>, vars: Vars, order: seq<string>)
    requires NamesOk(ps) && t.pattern == Flatten(ps)
    requires VarNamesOk(vars) && KeysOk(t.optional) && Enumerates(order, t.optional.Keys)
    ensures forall i | 0 <= i < |order| :: order[i] in t.optional
    ensures var text := AtOnce(ps, vars, t.optional);
            RenderIn(t, vars, order) == Rendered(text) <==>
            (forall q | q in t.required :: Given(vars, q)) && !BothBraces(text)
  {
    assert forall i | 0 <= i < |order| :: order[i] in order;
    MissingIff(t.required, vars);
    var c := if '{' in AtOnce(ps, vars, t.optional) then '}' else '{';
    LackOf(OnePass(ps, vars, t.optional), c);
    if !BothBraces(AtOnce(ps, vars, t.optional)) { Substituted(t, ps, vars, order, c); }
  }

  /** When the pattern, the values and the defaults that are used lack one kind of brace,
      as they do when they have none at all, rendering succeeds exactly when all required
      variables are given and every placeholder has a variable or a default, and it never
      gives anything else. */
  lemma SequentialIsSimultaneous(t: Template, ps: seq<Piece>, vars: Vars, order: seq<string>, c: char)
    requires NamesOk(ps) && t.pattern == Flatten(ps)
    requires VarNamesOk(vars) && KeysOk(t.optional) && Enumerates(order, t.optional.Keys)
    requires IsBrace(c) && LitsLack(OnePass(ps, vars, t.optional), c)
    ensures forall i | 0 <= i < |order| :: order[i] in t.optional
    ensures var r := RenderIn(t, vars, order);
            && (r.Rendered? <==>
                  && (forall q | q in t.required :: Given(vars, q))
                  && (forall i | 0 <= i < |ps| && ps[i].Hole? :: Given(vars, ps[i].key) || ps[i].key in t.optional))
            && (r.Rendered? ==> r.text == AtOnce(ps, vars, t.optional) && c !in r.text)
  {
    assert forall i | 0 <= i < |order| :: order[i] in order;
    MissingIff(t.required, vars);
    Substituted(t, ps, vars, order, c);
    LackOf(OnePass(ps, vars, t.optional), '{');
    LackOf(OnePass(ps, vars, t.optional), '}');
    ResolvedIff(ps, vars, t.optional);
  }

  /** Both loops of replacements together substitute everything at once. */
  lemma Substituted(t: Template, ps: seq<Piece>, vars: Vars, order: seq<string>, c: char)
    requires NamesOk(ps) && t.pattern == Flatten(ps)
    requires VarNamesOk(vars) && KeysOk(t.optional) && Enumerates(order, t.optional.Keys)
    requires forall i | 0 <= i < |order| :: order[i] in t.optional
    requires IsBrace(c) && LitsLack(OnePass(ps, vars, t.optional), c)
    ensures SubstituteDefaults(SubstituteVars(t.pattern, vars), t.optional, order) == AtOnce(ps, vars, t.optional)
  {
    var ps1 := VarsFilled(ps, vars);
    AllFilled(ps, vars, t.optional, order);
    KeepsLits(ps1, DefaultsFilled(ps1, t.optional, order), c);
    VarsFill(ps, vars, c);
    DefaultsFill(ps1, t.optional, order, c);
  }

  lemma AllFilled(ps: seq<Piece>, vars: Vars, optional: map<string, string>, order: seq<string>)
    requires Enumerates(order, optional.Keys)
    ensures DefaultsFilled(VarsFilled(ps, vars), optional, order) == OnePass(ps, vars, optional)
  {}

  lemma ResolvedIff(ps: seq<Piece>, vars: Vars, optional: map<string, string>)
    ensures Resolved(OnePass(ps, vars, optional)) <==>
            forall i | 0 <= i < |ps| && ps[i].Hole? :: Given(vars, ps[i].key) || ps[i].key in optional
  {
    var out := OnePass(ps, vars, optional);
    assert forall i | 0 <= i < |ps| ::
      out[i].Lit? <==> (ps[i].Hole? ==> Given(vars, ps[i].key) || ps[i].key in optional);
  }

  lemma {:induction false} FirstIndex(vars: Vars, key: string) returns (j: nat)
    requires Given(vars, key)
    ensures j < |vars| && vars[j] == (key, FirstOf(vars, key))
    decreases |vars|
  {
    if vars[0].0 == key {
      j := 0;
    } else {
      var i := FirstIndex(vars[1..], key);
      j := i + 1;
    }
  }

  /** render_map and the order of its hash maps: whichever way they are enumerated, the
      text substituted at once is the same, and it is rendered in one order if and only
      if it is in every other.  When the literals used lack one kind of brace, the whole
      result is the same, failures included. */
  lemma RenderMapIgnoresOrder(t: Template, ps: seq<Piece>, m: map<string, string>,
                              v1: Vars, v2: Vars, o1: seq<string>, o2: seq<string>)
    requires NamesOk(ps) && t.pattern == Flatten(ps) && KeysOk(m) && KeysOk(t.optional)
    requires EnumeratesMap(v1, m) && EnumeratesMap(v2, m)
    requires Enumerates(o1, t.optional.Keys) && Enumerates(o2, t.optional.Keys)
    ensures forall i | 0 <= i < |o1| :: o1[i] in t.optional
    ensures forall i | 0 <= i < |o2| :: o2[i] in t.optional
    ensures var (text, r1, r2) := (AtOnce(ps, v1, t.optional), RenderIn(t, v1, o1), RenderIn(t, v2, o2));
            && AtOnce(ps, v2, t.optional) == text
            && (r1 == Rendered(text) <==> r2 == Rendered(text))
            && (LitsLack(OnePass(ps, v1, t.optional), '{') || LitsLack(OnePass(ps, v1, t.optional), '}') ==> r1 == r2)
  {
    RendersAtOnceIff(t, ps, v1, o1);
    RendersAtOnceIff(t, ps, v2, o2);
    SameChoices(ps, m, v1, v2, t.optional);
    SameMissing(t.required, v1, v2, m);
    forall q
      ensures Given(v1, q) <==> Given(v2, q)
    {
      assert Given(v1, q) <==> q in m;
    }
    var c := if LitsLack(OnePass(ps, v1, t.optional), '{') then '{' else '}';
    if LitsLack(OnePass(ps, v1, t.optional), c) {
      Substituted(t, ps, v1, o1, c);
      Substituted(t, ps, v2, o2, c);
    }
  }

  lemma SameChoices(ps: seq<Piece>, m: map<string, string>, v1: Vars, v2: Vars, optional: map<string, string>)
    requires EnumeratesMap(v1, m) && EnumeratesMap(v2, m)
    ensures OnePass(ps, v1, optional) == OnePass(ps, v2, optional)
  {
    forall i | 0 <= i < |ps| && ps[i].Hole?
      ensures Chosen(ps[i].key, v1, optional) == Chosen(ps[i].key, v2, optional)
    {
      var key := ps[i].key;
      if Given(v1, key) {
        assert key in m && Given(v2, key);
        var j1 := FirstIndex(v1, key);
        var j2 := FirstIndex(v2, key);
      }
    }
  }

  lemma {:induction false} SameMissing(required: seq<string>, v1: Vars, v2: Vars, m: map<string, string>)
    requires EnumeratesMap(v1, m) && EnumeratesMap(v2, m)
    ensures FirstMissing(required, v1) == FirstMissing(required, v2)
  {
    if required != [] {
      assert Given(v1, required[0]) <==> required[0] in m;
      SameMissing(required[1..], v1, v2, m);
    }
  }

  /** When the substituted text has both kinds of braces, what rendering gives instead
      can depend on the order of the variables: a value is substituted again, or it
      makes the whole fail. */
  lemma BracesInValuesAreResubstituted()
    ensures var t := Template("{a}", [], map[]);
            && RenderIn(t, [("a", "{b}"), ("b", "x")], []) == Rendered("x")
            && RenderIn(t, [("b", "x"), ("a", "{b}")], []) == Unresolved
  {
    var a, b := Placeholder("a"), Placeholder("b");
    assert a == "{a}" && b == "{b}";
    assert Replace("{a}"[3..], a, "{b}") == "" && "{b}" + "" == "{b}";
    assert Replace("{a}", a, "{b}") == "{b}";
    assert Replace("{b}"[3..], b, "x") == "" && "x" + "" == "x";
    assert Replace("{b}", b, "x") == "x";
    assert !Contains("{a}", b) by {
      assert "{a}"[1..] == "a}" && "a}"[1..] == "}" && "}"[1..] == "";
      assert !(b <= "{a}") by { assert "{a}"[1] == 'a' && b[1] == 'b'; }
      assert !Contains("}", b) && !Contains("a}", b);
    }
    NotContained("{a}", b, "x");
    var v1, v2 := [("a", "{b}"), ("b", "x")], [("b", "x"), ("a", "{b}")];
    assert v1[1..] == [("b", "x")] && v2[1..] == [("a", "{b}")];
    assert SubstituteVars("{a}", v1) == SubstituteVars("{b}", v1[1..]) == "x";
    assert SubstituteVars("{a}", v2) == SubstituteVars("{a}", v2[1..]) == "{b}";
    assert "{b}"[0] == '{' && "{b}"[2] == '}';
  }
}
