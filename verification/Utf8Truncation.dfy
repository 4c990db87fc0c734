/** The character-boundary truncation loops of src/auto_scanner.rs and
    src/code_review.rs, over the bytes of UTF-8 as RFC 3629 defines them. */
module Utf8Truncation {

  newtype Byte = x: int | 0 <= x < 0x100

  predicate Tail(b: Byte) { 0x80 <= b <= 0xBF }

  /** Length of the character that starts a byte string, by the grammar of section 4
      of RFC 3629; 0 if none does. */
  function CharLen(s: seq<Byte>): nat {
    if s == [] then 0
    else if s[0] <= 0x7F then 1
    else if |s| >= 2 && 0xC2 <= s[0] <= 0xDF && Tail(s[1]) then 2
    else if |s| >= 3 && SecondOfThree(s[0], s[1]) && Tail(s[2]) then 3
    else if |s| >= 4 && SecondOfFour(s[0], s[1]) && Tail(s[2]) && Tail(s[3]) then 4
    else 0
  }

  predicate SecondOfThree(a: Byte, b: Byte) {
    || (a == 0xE0 && 0xA0 <= b <= 0xBF)
    || (0xE1 <= a <= 0xEC && Tail(b))
    || (a == 0xED && 0x80 <= b <= 0x9F)
    || (0xEE <= a <= 0xEF && Tail(b))
  }

  predicate SecondOfFour(a: Byte, b: Byte) {
    || (a == 0xF0 && 0x90 <= b <= 0xBF)
    || (0xF1 <= a <= 0xF3 && Tail(b))
    || (a == 0xF4 && 0x80 <= b <= 0x8F)
  }

  predicate Valid(s: seq<Byte>)
    decreases |s|
  {
    s == [] || (CharLen(s) > 0 && Valid(s[CharLen(s)..]))
  }

  /** Position i lies between two characters. */
  predicate Between(s: seq<Byte>, i: nat)
    decreases |s|
  {
    i == 0 || (CharLen(s) > 0 && CharLen(s) <= i && Between(s[CharLen(s)..], i - CharLen(s)))
  }

  /** Rust's `is_char_boundary`, which only looks at one byte. */
  predicate IsCharBoundary(s: seq<Byte>, i: nat) {
    i == 0 || i == |s| || (i < |s| && !Tail(s[i]))
  }

  /** The first bytes of at most n that end a character, at the longest. */
  ghost predicate LongestPrefix(s: seq<Byte>, n: nat, b: nat) {
    && b <= n && b <= |s| && Valid(s[..b])
    && forall k | b < k <= n && k <= |s| :: !Valid(s[..k])
  }

  /** The back-up loop. */
  method BackUp(s: seq<Byte>, n: nat) returns (b: nat)
    requires Valid(s) && n < |s|
    ensures LongestPrefix(s, n, b) && n <= b + 3 && Valid(s[b..])
  {
    b := n;
    while b > 0 && !IsCharBoundary(s, b)
      invariant b <= n
      invariant forall k | b < k <= n :: !IsCharBoundary(s, k)
    {
      b := b - 1;
    }
    BoundaryIsBetween(s, b);
    BetweenSplits(s, b);
    var near := NearBoundary(s, n);
    BoundaryIsBetween(s, near);
    forall k | b < k <= n
      ensures !Valid(s[..k])
    {
      BoundaryIsBetween(s, k);
      if Valid(s[..k]) { ValidPrefixIsBetween(s, k); }
    }
  }

  /** The boundary that auto_scanner computes for its 2000-byte previews. */
  method PreviewBoundary(s: seq<Byte>) returns (b: nat)
    requires Valid(s)
    ensures LongestPrefix(s, 2000, b) && (|s| <= 2000 ==> b == |s|) && (|s| > 2000 ==> 1997 <= b)
  {
    if |s| > 2000 {
      b := BackUp(s, 2000);
    } else {
      b := |s|;
      assert s[..b] == s;
    }
  }

  const ELLIPSIS: seq<Byte> := [0xE2, 0x80, 0xA6]

  /** `truncate` of code_review, which marks a cut with an ellipsis. */
  method Truncate(s: seq<Byte>, n: nat) returns (r: seq<Byte>)
    requires Valid(s)
    ensures Valid(r) && |r| <= (if |s| <= n then |s| else n + 3)
    ensures if |s| <= n then r == s else exists b: nat :: LongestPrefix(s, n, b) && n <= b + 3 && r == s[..b] + ELLIPSIS
  {
    if |s| <= n { return s; }
    var end := BackUp(s, n);
    assert CharLen(ELLIPSIS) == 3 && ELLIPSIS[3..] == [];
    ValidConcat(s[..end], ELLIPSIS);
    return s[..end] + ELLIPSIS;
  }

  // ------------------------------------------------------------------- lemmas

  lemma CharLenBounds(s: seq<Byte>)
    ensures CharLen(s) <= 4 && CharLen(s) <= |s|
    ensures CharLen(s) > 0 ==> !Tail(s[0]) && forall k | 0 < k < CharLen(s) :: Tail(s[k])
  {}

  /** One byte decides whether a position is between characters. */
  lemma {:induction false} BoundaryIsBetween(s: seq<Byte>, i: nat)
    requires Valid(s) && i <= |s|
    ensures IsCharBoundary(s, i) <==> Between(s, i)
    decreases |s|
  {
    if i > 0 {
      var c := CharLen(s);
      CharLenBounds(s);
      if i >= c { BoundaryIsBetween(s[c..], i - c); }
      if i == c && i < |s| { CharLenBounds(s[c..]); }
    }
  }

  /** The parts on either side of such a position are valid themselves. */
  lemma {:induction false} BetweenSplits(s: seq<Byte>, i: nat)
    requires Valid(s) && i <= |s| && Between(s, i)
    ensures Valid(s[..i]) && Valid(s[i..])
    decreases |s|
  {
    if i > 0 {
      var c := CharLen(s);
      CharLenBounds(s);
      BetweenSplits(s[c..], i - c);
      assert s[..i][c..] == s[c..][..i - c];
      assert s[i..] == s[c..][i - c..];
      CharLenOfPrefix(s, i);
    }
  }

  /** The first character is the same in every prefix that holds all of it. */
  lemma CharLenOfPrefix(s: seq<Byte>, i: nat)
    requires i <= |s| && CharLen(s) > 0
    ensures CharLen(s[..i]) == if i >= CharLen(s) then CharLen(s) else 0
  {
    var t := s[..i];
    assert forall k | 0 <= k < i :: t[k] == s[k];
  }

  /** A valid prefix of a valid string ends between two characters. */
  lemma {:induction false} ValidPrefixIsBetween(s: seq<Byte>, i: nat)
    requires Valid(s) && i <= |s| && Valid(s[..i])
    ensures Between(s, i)
    decreases |s|
  {
    if i > 0 {
      var c := CharLen(s);
      CharLenOfPrefix(s, i);
      assert s[..i] != [];
      assert s[..i][c..] == s[c..][..i - c];
      ValidPrefixIsBetween(s[c..], i - c);
    }
  }

  /** Some boundary lies at most three bytes back. */
  lemma {:induction false} NearBoundary(s: seq<Byte>, n: nat) returns (b: nat)
    requires Valid(s) && n <= |s|
    ensures b <= n <= b + 3 && Between(s, b)
    decreases |s|
  {
    var c := CharLen(s);
    CharLenBounds(s);
    if s == [] || n < c {
      b := 0;
    } else {
      var k := NearBoundary(s[c..], n - c);
      b := k + c;
    }
  }

  lemma {:induction false} ValidConcat(a: seq<Byte>, b: seq<Byte>)
    requires Valid(a) && Valid(b)
    ensures Valid(a + b)
    decreases |a|
  {
    if a == [] {
      assert a + b == b;
    } else {
      var c := CharLen(a);
      CharLenBounds(a);
      assert (a + b)[..|a|] == a;
      assert forall k | 0 <= k < |a| :: (a + b)[k] == a[k];
      assert CharLen(a + b) == c;
      assert (a + b)[c..] == a[c..] + b;
      ValidConcat(a[c..], b);
    }
  }
}
