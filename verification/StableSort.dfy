/** Rust's stable `sort_by` with a descending key, as insertion sort. */
module StableSort {

  function Insert<T>(key: T -> real, x: T, s: seq<T>): seq<T> {
    if s == [] || key(x) >= key(s[0]) then [x] + s else [s[0]] + Insert(key, x, s[1..])
  }

  function Sort<T>(key: T -> real, c: seq<T>): seq<T> {
    if c == [] then [] else Insert(key, c[0], Sort(key, c[1..]))
  }

  function Truncate<T>(s: seq<T>, limit: nat): seq<T> { if |s| <= limit then s else s[..limit] }

  ghost predicate Descending<T>(key: T -> real, s: seq<T>) {
    forall i, j | 0 <= i < j < |s| :: key(s[i]) >= key(s[j])
  }

  ghost predicate Distinct<T>(c: seq<T>) { forall i, j | 0 <= i < j < |c| :: c[i] != c[j] }

  /** a comes somewhere before every occurrence of b. */
  ghost predicate Ahead<T>(s: seq<T>, a: T, b: T) {
    forall q | 0 <= q < |s| && s[q] == b :: exists p :: 0 <= p < q && s[p] == a
  }

  /** Where an element goes: behind everything larger, ahead of everything else. */
  lemma {:induction false} InsertAt<T>(key: T -> real, x: T, s: seq<T>) returns (m: nat)
    requires Descending(key, s)
    ensures m <= |s| && Insert(key, x, s) == s[..m] + [x] + s[m..]
    ensures forall i | 0 <= i < m :: key(s[i]) > key(x)
    ensures forall i | m <= i < |s| :: key(s[i]) <= key(x)
    ensures Descending(key, Insert(key, x, s))
  {
    if s == [] || key(x) >= key(s[0]) {
      m := 0;
    } else {
      var k := InsertAt(key, x, s[1..]);
      m := k + 1;
      var t := s[1..];
      assert s == [s[0]] + t;
      assert Insert(key, x, s) == s[..m] + [x] + s[m..];
    }
    DescendingInserted(key, x, s, m);
  }

  lemma DescendingInserted<T>(key: T -> real, x: T, s: seq<T>, m: nat)
    requires Descending(key, s) && m <= |s|
    requires forall i | 0 <= i < m :: key(s[i]) > key(x)
    requires forall i | m <= i < |s| :: key(s[i]) <= key(x)
    ensures Descending(key, s[..m] + [x] + s[m..])
  {}

  lemma {:induction false} SortIsSorted<T>(key: T -> real, c: seq<T>)
    ensures Descending(key, Sort(key, c)) && multiset(Sort(key, c)) == multiset(c) && |Sort(key, c)| == |c|
    decreases |c|
  {
    if c != [] {
      SortIsSorted(key, c[1..]);
      var s := Sort(key, c[1..]);
      var m := InsertAt(key, c[0], s);
      assert s == s[..m] + s[m..];
      assert c == [c[0]] + c[1..];
      assert multiset(s[..m] + [c[0]] + s[m..]) == multiset(s) + multiset{c[0]};
    }
  }

  lemma InsertKeepsAhead<T>(key: T -> real, x: T, s: seq<T>, a: T, b: T)
    requires Descending(key, s) && Ahead(s, a, b) && x != b
    ensures Ahead(Insert(key, x, s), a, b)
  {
    var m := InsertAt(key, x, s);
    var r := Insert(key, x, s);
    assert forall k | 0 <= k < m :: r[k] == s[k];
    assert forall k | m < k < |r| :: r[k] == s[k - 1];
    assert r[m] == x;
    AheadInserted(s, r, x, m, a, b);
  }

  lemma AheadInserted<T>(s: seq<T>, r: seq<T>, x: T, m: nat, a: T, b: T)
    requires m <= |s| && |r| == |s| + 1 && r[m] == x && x != b && Ahead(s, a, b)
    requires forall k | 0 <= k < m :: r[k] == s[k]
    requires forall k | m < k < |r| :: r[k] == s[k - 1]
    ensures Ahead(r, a, b)
  {
    forall q | 0 <= q < |r| && r[q] == b
      ensures exists p :: 0 <= p < q && r[p] == a
    {
      var q' := if q < m then q else q - 1;
      assert s[q'] == b;
      var p :| 0 <= p < q' && s[p] == a;
      assert r[if p < m then p else p + 1] == a;
    }
  }

  /** The sort is stable: an element that is at least as large and comes earlier stays ahead. */
  lemma {:induction false} SortIsStable<T>(key: T -> real, c: seq<T>, i: nat, j: nat)
    requires Distinct(c) && i < j < |c| && key(c[i]) >= key(c[j])
    ensures Ahead(Sort(key, c), c[i], c[j])
    decreases |c|
  {
    var rest := c[1..];
    var s := Sort(key, rest);
    SortIsSorted(key, rest);
    assert c[j] == rest[j - 1];
    if i == 0 {
      var m := InsertAt(key, c[0], s);
      var r := Sort(key, c);
      assert r[m] == c[0];
      assert forall q | 0 <= q < m :: r[q] == s[q] && key(r[q]) > key(c[0]);
    } else {
      assert c[i] == rest[i - 1];
      SortIsStable(key, rest, i - 1, j - 1);
      InsertKeepsAhead(key, c[0], s, c[i], c[j]);
    }
  }

  /** Truncating a sorted sequence keeps the largest. */
  lemma LargestKept<T>(key: T -> real, c: seq<T>, limit: nat) returns (omitted: seq<T>)
    ensures var r := Truncate(Sort(key, c), limit);
            && Descending(key, r) && |r| == (if |c| <= limit then |c| else limit)
            && Sort(key, c) == r + omitted
            && multiset(c) == multiset(r) + multiset(omitted)
            && forall i, j | 0 <= i < |omitted| && 0 <= j < |r| :: key(omitted[i]) <= key(r[j])
  {
    var s := Sort(key, c);
    SortIsSorted(key, c);
    var r := Truncate(s, limit);
    omitted := s[|r|..];
    assert s == r + omitted;
    assert forall i | 0 <= i < |omitted| :: omitted[i] == s[|r| + i];
    assert forall j | 0 <= j < |r| :: r[j] == s[j];
  }

  lemma TwiceInSequence<T>(s: seq<T>, i: nat, j: nat)
    requires i < j < |s| && s[i] == s[j]
    ensures multiset(s)[s[i]] >= 2
  {
    assert s == s[..j] + s[j..];
    assert s[..j][i] == s[i] && s[j..][0] == s[j];
    assert s[i] in multiset(s[..j]) && s[i] in multiset(s[j..]);
  }

  lemma OnceInSequence<T>(s: seq<T>, p: nat)
    requires Distinct(s) && p < |s|
    ensures multiset(s)[s[p]] == 1
  {
    assert s == s[..p] + [s[p]] + s[p + 1..];
    assert s[p] !in s[..p] && s[p] !in s[p + 1..];
  }

  lemma SameMember<T>(a: seq<T>, b: seq<T>, x: T)
    requires multiset(a) == multiset(b)
    ensures x in a <==> x in b
  {
    assert x in a <==> x in multiset(a);
    assert x in b <==> x in multiset(b);
  }

  /** Sorting keeps elements distinct, and the same. */
  lemma SortKeepsElements<T>(key: T -> real, c: seq<T>)
    ensures forall x :: x in Sort(key, c) <==> x in c
    ensures Distinct(c) ==> Distinct(Sort(key, c))
  {
    var s := Sort(key, c);
    SortIsSorted(key, c);
    forall x
      ensures x in s <==> x in c
    {
      SameMember(s, c, x);
    }
    if Distinct(c) {
      forall i, j | 0 <= i < j < |s|
        ensures s[i] != s[j]
      {
        SameMember(s, c, s[i]);
        var p :| 0 <= p < |c| && c[p] == s[i];
        OnceInSequence(c, p);
        if s[i] == s[j] { TwiceInSequence(s, i, j); }
      }
    }
  }
}
