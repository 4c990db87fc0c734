/** Reciprocal Rank Fusion: merge_results of src/search.rs, with real arithmetic. */
module RankFusion {
  import opened Wrappers
  import opened StableSort

  /** A search result; `content` stands for the fields that merging only copies. */
  datatype Result = Result(
    id: string, score: real, content: string,
    semanticMatch: bool, keywordMatch: bool, semanticScore: Option<real>, keywordScore: Option<real>)

  /** The weights of SearchConfig. */
  datatype Weights = Weights(semantic: real, keyword: real)

  function Term(weight: real, rank: nat): real { weight / (60.0 + rank as real + 1.0) }

  // ------------------------------------------------------------- what it means

  /** The last rank of an id in a list, which is its only one if ids are distinct. */
  function Rank(list: seq<Result>, id: string): Option<nat>
    decreases |list|
  {
    if list == [] then None
    else if list[|list| - 1].id == id then Some(|list| - 1)
    else Rank(list[..|list| - 1], id)
  }

  /** What each rank is worth in either list. */
  datatype Worth = Worth(semantic: nat -> real, keyword: nat -> real)

  function WorthOf(w: Weights): Worth {
    Worth((rank: nat) => Term(w.semantic, rank), (rank: nat) => Term(w.keyword, rank))
  }

  function Part(worth: nat -> real, rank: Option<nat>): real {
    if rank.None? then 0.0 else worth(rank.value)
  }

  /** The first rank of an id in a list. */
  function First(list: seq<Result>, id: string): Option<nat>
    decreases |list|
  {
    if list == [] then None
    else
      var front := First(list[..|list| - 1], id);
      if front.None? && list[|list| - 1].id == id then Some(|list| - 1) else front
  }

  /** What all places of an id in a list are worth together. */
  function Total(worth: nat -> real, list: seq<Result>, id: string): real
    decreases |list|
  {
    if list == [] then 0.0
    else
      var n := |list| - 1;
      Total(worth, list[..n], id) + (if list[n].id == id then worth(n) else 0.0)
  }

  /** The fused score of an id: a repeated semantic result replaces the one before it,
      and a repeated keyword result adds to it. */
  function Fused(sem: seq<Result>, kw: seq<Result>, w: Worth, id: string): real {
    Part(w.semantic, Rank(sem, id)) + Total(w.keyword, kw, id)
  }

  function Ids(list: seq<Result>): set<string> { set i | 0 <= i < |list| :: list[i].id }

  ghost predicate DistinctIds(list: seq<Result>) {
    forall i, j | 0 <= i < j < |list| :: list[i].id != list[j].id
  }

  /** What one merged result looks like: the last semantic result if there is one, or
      else the first keyword result, with the fused score.  A keyword result that found
      another one in place leaves its marks on it. */
  function Merged(sem: seq<Result>, kw: seq<Result>, w: Worth, id: string): Result
    requires Rank(sem, id).Some? || Rank(kw, id).Some?
  {
    var s, k, first := Rank(sem, id), Rank(kw, id), First(kw, id);
    RankInRange(sem, id);
    RankInRange(kw, id);
    FirstInRange(kw, id);
    var base := (if s.Some? then sem[s.value] else kw[first.value]).(score := Fused(sem, kw, w, id));
    if k.None? || (s.None? && k == first) then base
    else base.(keywordMatch := true, keywordScore := Some(kw[k.value].score))
  }

  function ScoreOf(r: Result): real { r.score }

  /** The specification of a merge, whatever order the hash map iterates in. */
  ghost predicate IsMerge(sem: seq<Result>, kw: seq<Result>, w: Worth, topK: nat, r: seq<Result>) {
    var all := Ids(sem) + Ids(kw);
    && |r| == (if |all| <= topK then |all| else topK)
    && DistinctIds(r)
    && Descending(ScoreOf, r)
    && (forall i | 0 <= i < |r| :: RankedIn(sem, kw, r[i].id) && r[i] == Merged(sem, kw, w, r[i].id))
    && (forall id, i | id in all && id !in Ids(r) && 0 <= i < |r| :: Fused(sem, kw, w, id) <= r[i].score)
  }

  ghost predicate RankedIn(sem: seq<Result>, kw: seq<Result>, id: string) {
    Rank(sem, id).Some? || Rank(kw, id).Some?
  }

  lemma {:induction false} RankInRange(list: seq<Result>, id: string)
    ensures Rank(list, id).Some? <==> id in Ids(list)
    ensures Rank(list, id).Some? ==> Rank(list, id).value < |list| && list[Rank(list, id).value].id == id
    decreases |list|
  {
    if list != [] {
      var front := list[..|list| - 1];
      RankInRange(front, id);
      if id in Ids(list) && list[|list| - 1].id != id {
        var i :| 0 <= i < |list| && list[i].id == id;
        assert front[i].id == id;
      }
    }
  }

  lemma {:induction false} FirstInRange(list: seq<Result>, id: string)
    ensures First(list, id).Some? <==> Rank(list, id).Some?
    ensures First(list, id).Some? ==> First(list, id).value < |list| && list[First(list, id).value].id == id
    decreases |list|
  {
    if list != [] { FirstInRange(list[..|list| - 1], id); }
  }

  /** With distinct ids the fused score is the sum of the two weighted reciprocal ranks,
      and the merged result is the semantic one if there is one, marked as a keyword
      match too when it is one, or else the keyword one as it was. */
  lemma MergedOfDistinct(sem: seq<Result>, kw: seq<Result>, w: Worth, id: string)
    requires DistinctIds(kw) && RankedIn(sem, kw, id)
    ensures Fused(sem, kw, w, id) == Part(w.semantic, Rank(sem, id)) + Part(w.keyword, Rank(kw, id))
    ensures Rank(sem, id).Some? ==> Rank(sem, id).value < |sem|
    ensures Rank(kw, id).Some? ==> Rank(kw, id).value < |kw|
    ensures var (s, k, m) := (Rank(sem, id), Rank(kw, id), Merged(sem, kw, w, id));
            var score := Fused(sem, kw, w, id);
            m == if s.None? then kw[k.value].(score := score)
                 else if k.None? then sem[s.value].(score := score)
                 else sem[s.value].(score := score, keywordMatch := true, keywordScore := Some(kw[k.value].score))
  {
    RankInRange(sem, id);
    RankInRange(kw, id);
    RankedOnce(kw, w.keyword, id);
  }

  lemma {:induction false} RankedOnce(list: seq<Result>, worth: nat -> real, id: string)
    requires DistinctIds(list)
    ensures First(list, id) == Rank(list, id) && Total(worth, list, id) == Part(worth, Rank(list, id))
    decreases |list|
  {
    if list != [] {
      var n := |list| - 1;
      RankedOnce(list[..n], worth, id);
      RankInRange(list[..n], id);
      FirstInRange(list[..n], id);
    }
  }

  lemma {:induction false} TotalAbsent(worth: nat -> real, list: seq<Result>, id: string)
    ensures Rank(list, id).None? ==> Total(worth, list, id) == 0.0
    decreases |list|
  {
    if list != [] { TotalAbsent(worth, list[..|list| - 1], id); }
  }

  lemma RankSnoc(list: seq<Result>, i: nat, id: string)
    requires i < |list|
    ensures Rank(list[..i + 1], id) == if list[i].id == id then Some(i) else Rank(list[..i], id)
    ensures First(list[..i + 1], id) ==
            if First(list[..i], id).None? && list[i].id == id then Some(i) else First(list[..i], id)
    ensures forall worth: nat -> real ::
              Total(worth, list[..i + 1], id) ==
              Total(worth, list[..i], id) + if list[i].id == id then worth(i) else 0.0
  {
    assert list[..i + 1][..i] == list[..i];
  }

  // -------------------------------------------------------------------- method

  type Scores = map<string, (real, Result)>

  /** The map holds exactly the ids seen so far, each with its merged result. */
  ghost predicate Holds(scores: Scores, sem: seq<Result>, kw: seq<Result>, w: Worth) {
    && scores.Keys == Ids(sem) + Ids(kw)
    && forall id | id in scores :: RankedIn(sem, kw, id) && Finished(scores[id]) == Merged(sem, kw, w, id)
  }

  /** The score is copied into a result only at the end. */
  function Finished(e: (real, Result)): Result { e.1.(score := e.0) }

  /** With distinct ids, what a result is made of, in the numbers of the source: from
      place s of the semantic list w.semantic / (61 + s), from place k of the keyword
      list w.keyword / (61 + k), and the sum of both for a result of both lists, which is
      the semantic one with the keyword marks. */
  ghost predicate FusedFrom(r: Result, sem: seq<Result>, kw: seq<Result>, w: Weights) {
    && (r.id in Ids(sem) || r.id in Ids(kw))
    && (forall s | 0 <= s < |sem| && sem[s].id == r.id && r.id !in Ids(kw) ::
          r == sem[s].(score := w.semantic / (61.0 + s as real)))
    && (forall k | 0 <= k < |kw| && kw[k].id == r.id && r.id !in Ids(sem) ::
          r == kw[k].(score := w.keyword / (61.0 + k as real)))
    && (forall s, k | 0 <= s < |sem| && 0 <= k < |kw| && sem[s].id == r.id && kw[k].id == r.id ::
          r == sem[s].(score := w.semantic / (61.0 + s as real) + w.keyword / (61.0 + k as real),
                       keywordMatch := true, keywordScore := Some(kw[k].score)))
  }

  lemma RankIs(list: seq<Result>, i: nat)
    requires DistinctIds(list) && i < |list|
    ensures Rank(list, list[i].id) == Some(i)
  {
    RankInRange(list, list[i].id);
  }

  lemma RankOrAbsent(list: seq<Result>, id: string)
    ensures id !in Ids(list) ==> Rank(list, id) == None
    ensures DistinctIds(list) ==> forall i | 0 <= i < |list| && list[i].id == id :: Rank(list, id) == Some(i)
  {
    RankInRange(list, id);
    if DistinctIds(list) {
      forall i | 0 <= i < |list| && list[i].id == id
        ensures Rank(list, id) == Some(i)
      {
        RankIs(list, i);
      }
    }
  }

  lemma TermIs(weight: real, rank: nat)
    ensures Term(weight, rank) == weight / (61.0 + rank as real)
  {}

  lemma ScoresAreFused(sem: seq<Result>, kw: seq<Result>, w: Weights, topK: nat, r: seq<Result>)
    requires DistinctIds(sem) && DistinctIds(kw) && IsMerge(sem, kw, WorthOf(w), topK, r)
    ensures forall i | 0 <= i < |r| :: FusedFrom(r[i], sem, kw, w)
  {
    forall i | 0 <= i < |r|
      ensures FusedFrom(r[i], sem, kw, w)
    {
      MergedIsFused(sem, kw, w, r[i].id);
    }
  }

  lemma MergedIsFused(sem: seq<Result>, kw: seq<Result>, w: Weights, id: string)
    requires DistinctIds(sem) && DistinctIds(kw) && RankedIn(sem, kw, id)
    ensures FusedFrom(Merged(sem, kw, WorthOf(w), id), sem, kw, w)
  {
    RankInRange(sem, id);
    RankInRange(kw, id);
    RankOrAbsent(sem, id);
    RankOrAbsent(kw, id);
    MergedOfDistinct(sem, kw, WorthOf(w), id);
    if Rank(sem, id).Some? { TermIs(w.semantic, Rank(sem, id).value); }
    if Rank(kw, id).Some? { TermIs(w.keyword, Rank(kw, id).value); }
  }

  /** The source's three passes and the final sort. */
  method MergeResults(sem: seq<Result>, kw: seq<Result>, w: Weights, topK: nat) returns (r: seq<Result>)
    ensures IsMerge(sem, kw, WorthOf(w), topK, r)
    ensures DistinctIds(sem) && DistinctIds(kw) ==> forall i | 0 <= i < |r| :: FusedFrom(r[i], sem, kw, w)
  {
    var scores := AddSemantic(sem, w);
    scores := AddKeyword(scores, sem, kw, w);
    var merged := CollectScores(scores);
    var sorted := Sort(ScoreOf, merged);
    r := Truncate(sorted, topK);
    forall i | 0 <= i < |merged|
      ensures RankedIn(sem, kw, merged[i].id) && merged[i] == Merged(sem, kw, WorthOf(w), merged[i].id)
    {
      assert merged[i].id in scores;
    }
    KeepTop(sem, kw, WorthOf(w), merged, topK);
    if DistinctIds(sem) && DistinctIds(kw) { ScoresAreFused(sem, kw, w, topK, r); }
  }

  method AddSemantic(sem: seq<Result>, w: Weights) returns (scores: Scores)
    ensures forall id | id in scores :: scores[id].1.id == id
    ensures Holds(scores, sem, [], WorthOf(w))
  {
    scores := map[];
    for rank := 0 to |sem|
      invariant forall id | id in scores :: scores[id].1.id == id
      invariant Holds(scores, sem[..rank], [], WorthOf(w))
    {
      var result := sem[rank];
      var rrf := w.semantic / (60.0 + rank as real + 1.0);
      ghost var before := scores;
      scores := scores[result.id := (rrf, result)];
      assert rrf == Term(w.semantic, rank) == WorthOf(w).semantic(rank);
      SemanticStep(before, scores, sem, rank, WorthOf(w));
    }
    assert sem[..|sem|] == sem;
  }

  method AddKeyword(scores0: Scores, sem: seq<Result>, kw: seq<Result>, w: Weights) returns (scores: Scores)
    requires forall id | id in scores0 :: scores0[id].1.id == id
    ensures forall id | id in scores :: scores[id].1.id == id
    ensures Holds(scores0, sem, [], WorthOf(w)) ==> Holds(scores, sem, kw, WorthOf(w))
  {
    scores := scores0;
    assert kw[..0] == [];
    for rank := 0 to |kw|
      invariant forall id | id in scores :: scores[id].1.id == id
      invariant Holds(scores0, sem, [], WorthOf(w)) ==> Holds(scores, sem, kw[..rank], WorthOf(w))
    {
      scores := AddKeywordResult(scores, sem, kw, w, rank);
    }
    assert kw[..|kw|] == kw;
  }

  /** One turn of the keyword pass. */
  method AddKeywordResult(scores0: Scores, ghost sem: seq<Result>, kw: seq<Result>, w: Weights, rank: nat)
    returns (scores: Scores)
    requires rank < |kw| && forall id | id in scores0 :: scores0[id].1.id == id
    ensures forall id | id in scores :: scores[id].1.id == id
    ensures Holds(scores0, sem, kw[..rank], WorthOf(w)) ==> Holds(scores, sem, kw[..rank + 1], WorthOf(w))
  {
    var rrf := w.keyword / (60.0 + rank as real + 1.0);
    scores := AddOne(scores0, kw[rank], rrf);
    if Holds(scores0, sem, kw[..rank], WorthOf(w)) {
      KeywordStep(scores0, scores, sem, kw, rank, WorthOf(w));
    }
  }

  /** `entry(..).and_modify(..).or_insert(..)`. */
  method AddOne(scores0: Scores, result: Result, rrf: real) returns (scores: Scores)
    ensures scores == scores0[result.id :=
              if result.id in scores0 then
                (scores0[result.id].0 + rrf,
                 scores0[result.id].1.(keywordMatch := true, keywordScore := Some(result.score)))
              else (rrf, result)]
  {
    if result.id in scores0 {
      var (score, existing) := scores0[result.id];
      existing := existing.(keywordMatch := true, keywordScore := Some(result.score));
      scores := scores0[result.id := (score + rrf, existing)];
    } else {
      scores := scores0[result.id := (rrf, result)];
    }
  }

  /** Empties the hash map into a vector, in an order that is left open. */
  method CollectScores(scores: Scores) returns (merged: seq<Result>)
    requires forall id | id in scores :: scores[id].1.id == id
    ensures Ids(merged) == scores.Keys && DistinctIds(merged)
    ensures forall i | 0 <= i < |merged| :: merged[i].id in scores && merged[i] == Finished(scores[merged[i].id])
  {
    merged := [];
    var left := scores.Keys;
    while left != {}
      invariant left <= scores.Keys
      invariant Ids(merged) == scores.Keys - left && DistinctIds(merged)
      invariant forall i | 0 <= i < |merged| :: merged[i].id in scores && merged[i] == Finished(scores[merged[i].id])
      decreases left
    {
      var id :| id in left;
      left := left - {id};
      ghost var before := merged;
      var (score, result) := scores[id];
      merged := merged + [result.(score := score)];
      assert id !in Ids(before);
      assert forall i | 0 <= i < |before| :: before[i].id in Ids(before) && merged[i] == before[i];
      IdsSnoc(merged, |before|);
      assert merged[..|before|] == before && merged[..|before| + 1] == merged;
    }
  }

  // ------------------------------------------------------- why the passes work

  lemma IdsSnoc(list: seq<Result>, i: nat)
    requires i < |list|
    ensures Ids(list[..i + 1]) == Ids(list[..i]) + {list[i].id}
  {}

  /** The merged result of one id when the next semantic result arrives. */
  lemma MergedAfterSemantic(sem: seq<Result>, i: nat, w: Worth, id: string)
    requires i < |sem| && (id == sem[i].id || RankedIn(sem[..i], [], id))
    ensures RankedIn(sem[..i + 1], [], id)
    ensures Merged(sem[..i + 1], [], w, id) ==
            if id == sem[i].id then sem[i].(score := w.semantic(i)) else Merged(sem[..i], [], w, id)
  {
    RankSnoc(sem, i, id);
    RankInRange(sem[..i], id);
    assert Rank([], id) == None;
    assert sem[..i + 1][i] == sem[i];
  }

  lemma SemanticStep(before: Scores, scores: Scores, sem: seq<Result>, rank: nat, w: Worth)
    requires rank < |sem| && Holds(before, sem[..rank], [], w)
    requires scores == before[sem[rank].id := (w.semantic(rank), sem[rank])]
    ensures Holds(scores, sem[..rank + 1], [], w)
  {
    IdsSnoc(sem, rank);
    forall id | id in scores
      ensures RankedIn(sem[..rank + 1], [], id) && Finished(scores[id]) == Merged(sem[..rank + 1], [], w, id)
    {
      if id != sem[rank].id { assert id in before; }
      MergedAfterSemantic(sem, rank, w, id);
    }
  }

  /** The merged result of one id when the next keyword result arrives. */
  lemma MergedAfterKeyword(sem: seq<Result>, kw: seq<Result>, i: nat, w: Worth, id: string)
    requires i < |kw| && (id == kw[i].id || RankedIn(sem, kw[..i], id))
    ensures RankedIn(sem, kw[..i + 1], id)
    ensures RankedIn(sem, kw[..i], id) <==> id in Ids(sem) + Ids(kw[..i])
    ensures Merged(sem, kw[..i + 1], w, id) ==
            if id != kw[i].id then Merged(sem, kw[..i], w, id)
            else if id !in Ids(sem) + Ids(kw[..i]) then kw[i].(score := w.keyword(i))
            else
              var m := Merged(sem, kw[..i], w, id);
              m.(score := m.score + w.keyword(i), keywordMatch := true, keywordScore := Some(kw[i].score))
  {
    RankSnoc(kw, i, id);
    RankInRange(sem, id);
    RankInRange(kw[..i], id);
    FirstInRange(kw[..i], id);
    TotalAbsent(w.keyword, kw[..i], id);
    assert forall j | 0 <= j < i :: kw[..i + 1][j] == kw[..i][j];
    assert kw[..i + 1][i] == kw[i];
  }

  lemma KeywordStep(before: Scores, scores: Scores, sem: seq<Result>, kw: seq<Result>, rank: nat, w: Worth)
    requires rank < |kw| && Holds(before, sem, kw[..rank], w)
    requires var e, term := kw[rank], w.keyword(rank);
             scores == before[e.id :=
               if e.id in before then
                 (before[e.id].0 + term, before[e.id].1.(keywordMatch := true, keywordScore := Some(e.score)))
               else (term, e)]
    ensures Holds(scores, sem, kw[..rank + 1], w)
  {
    IdsSnoc(kw, rank);
    RankInRange(kw[..rank], kw[rank].id);
    forall id | id in scores
      ensures RankedIn(sem, kw[..rank + 1], id) && Finished(scores[id]) == Merged(sem, kw[..rank + 1], w, id)
    {
      if id != kw[rank].id { assert id in before; }
      MergedAfterKeyword(sem, kw, rank, w, id);
    }
  }

  /** Every id once, with its merged result. */
  ghost predicate IsComplete(merged: seq<Result>, sem: seq<Result>, kw: seq<Result>, w: Worth) {
    && DistinctIds(merged) && Ids(merged) == Ids(sem) + Ids(kw)
    && forall i | 0 <= i < |merged| :: RankedIn(sem, kw, merged[i].id) && merged[i] == Merged(sem, kw, w, merged[i].id)
  }

  lemma KeepsDistinct(merged: seq<Result>, topK: nat)
    requires DistinctIds(merged)
    ensures var r := Truncate(Sort(ScoreOf, merged), topK);
            && Descending(ScoreOf, r) && DistinctIds(r) && |r| <= topK
            && forall i | 0 <= i < |r| :: r[i] in merged
  {
    var s := Sort(ScoreOf, merged);
    SortIsSorted(ScoreOf, merged);
    SortedDistinct(merged, s);
    forall i | 0 <= i < |s|
      ensures s[i] in merged
    {
      assert s[i] in multiset(s);
    }
  }

  /** Sorting and truncating a complete merge. */
  lemma KeepTop(sem: seq<Result>, kw: seq<Result>, w: Worth, merged: seq<Result>, topK: nat)
    requires IsComplete(merged, sem, kw, w)
    ensures IsMerge(sem, kw, w, topK, Truncate(Sort(ScoreOf, merged), topK))
  {
    var r := Truncate(Sort(ScoreOf, merged), topK);
    KeepsDistinct(merged, topK);
    var omitted := LargestKept(ScoreOf, merged, topK);
    DistinctSize(merged);
    forall i | 0 <= i < |r|
      ensures RankedIn(sem, kw, r[i].id) && r[i] == Merged(sem, kw, w, r[i].id)
    {
      assert r[i] in merged;
    }
    forall id, i | id in Ids(sem) + Ids(kw) && id !in Ids(r) && 0 <= i < |r|
      ensures Fused(sem, kw, w, id) <= r[i].score
    {
      OmittedIsSmaller(sem, kw, w, merged, r, omitted, id, i);
    }
  }

  lemma OmittedIsSmaller(sem: seq<Result>, kw: seq<Result>, w: Worth, merged: seq<Result>,
                         r: seq<Result>, omitted: seq<Result>, id: string, i: nat)
    requires IsComplete(merged, sem, kw, w) && multiset(merged) == multiset(r) + multiset(omitted)
    requires forall i, j | 0 <= i < |omitted| && 0 <= j < |r| :: ScoreOf(omitted[i]) <= ScoreOf(r[j])
    requires id in Ids(merged) && id !in Ids(r) && i < |r|
    ensures Fused(sem, kw, w, id) <= r[i].score
  {
    var k :| 0 <= k < |merged| && merged[k].id == id;
    assert merged[k] in multiset(merged);
    assert merged[k] !in r;
    assert merged[k] in multiset(omitted);
    var m :| 0 <= m < |omitted| && omitted[m] == merged[k];
    assert ScoreOf(omitted[m]) <= ScoreOf(r[i]);
    assert merged[k].score == Fused(sem, kw, w, id);
  }

  /** A permutation has the same distinct ids. */
  lemma SortedDistinct(a: seq<Result>, b: seq<Result>)
    requires DistinctIds(a) && multiset(a) == multiset(b)
    ensures DistinctIds(b)
  {
    forall i, j | 0 <= i < j < |b|
      ensures b[i].id != b[j].id
    {
      assert b[i] in multiset(b) && b[j] in multiset(b);
      assert b[i] in multiset(a) && b[j] in multiset(a);
      var p :| 0 <= p < |a| && a[p] == b[i];
      var q :| 0 <= q < |a| && a[q] == b[j];
      if b[i].id == b[j].id {
        assert p == q;
        TwiceInSequence(b, i, j);
        assert Distinct(a);
        OnceInSequence(a, p);
      }
    }
  }

  lemma {:induction false} DistinctSize(s: seq<Result>)
    requires DistinctIds(s)
    ensures |Ids(s)| == |s|
    decreases |s|
  {
    if s != [] {
      var n := |s| - 1;
      DistinctSize(s[..n]);
      IdsSnoc(s, n);
      assert s[..n + 1] == s;
      RankInRange(s[..n], s[n].id);
    }
  }

  // ----------------------------------------------------------------- dominance

  /** Rank a is at least as good as rank b; an absent id ranks worst. */
  predicate NoWorse(a: Option<nat>, b: Option<nat>) { b.None? || (a.Some? && a.value <= b.value) }

  predicate Better(a: Option<nat>, b: Option<nat>) { a.Some? && (b.None? || a.value < b.value) }

  lemma TermDecreases(weight: real, a: nat, b: nat)
    requires weight > 0.0 && a < b
    ensures Term(weight, a) > Term(weight, b) > 0.0
  {
    var p, q := 60.0 + a as real + 1.0, 60.0 + b as real + 1.0;
    var x, y := Term(weight, a), Term(weight, b);
    assert x * p == weight && y * q == weight;
  }

  lemma PartMonotone(weight: real, worth: nat -> real, a: Option<nat>, b: Option<nat>)
    requires weight > 0.0 && NoWorse(a, b) && forall rank :: worth(rank) == Term(weight, rank)
    ensures Part(worth, a) >= Part(worth, b)
    ensures Better(a, b) ==> Part(worth, a) > Part(worth, b)
  {
    if a.Some? && b.Some? && a.value < b.value { TermDecreases(weight, a.value, b.value); }
  }

  /** With positive weights, an id that ranks no worse in either list and better in one
      has the higher fused score, so no merge returns the other without it, ahead. */
  lemma Dominance(sem: seq<Result>, kw: seq<Result>, w: Weights, topK: nat, r: seq<Result>, a: string, j: nat)
    requires w.semantic > 0.0 && w.keyword > 0.0 && DistinctIds(kw) && IsMerge(sem, kw, WorthOf(w), topK, r) && j < |r|
    requires NoWorse(Rank(sem, a), Rank(sem, r[j].id)) && NoWorse(Rank(kw, a), Rank(kw, r[j].id))
    requires Better(Rank(sem, a), Rank(sem, r[j].id)) || Better(Rank(kw, a), Rank(kw, r[j].id))
    ensures Fused(sem, kw, WorthOf(w), a) > r[j].score
    ensures exists i :: 0 <= i < j && r[i].id == a
  {
    DominatingScore(sem, kw, w, a, r[j].id);
    RankInRange(sem, a);
    RankInRange(kw, a);
    HigherIsAhead(sem, kw, WorthOf(w), topK, r, a, j);
  }

  /** An id of either list whose score is higher than that of a result is a result, ahead. */
  lemma HigherIsAhead(sem: seq<Result>, kw: seq<Result>, w: Worth, topK: nat, r: seq<Result>, a: string, j: nat)
    requires IsMerge(sem, kw, w, topK, r) && j < |r| && a in Ids(sem) + Ids(kw) && Fused(sem, kw, w, a) > r[j].score
    ensures exists i :: 0 <= i < j && r[i].id == a
  {
    assert a in Ids(r);
    var i :| 0 <= i < |r| && r[i].id == a;
    assert r[i].score == Fused(sem, kw, w, a);
    assert forall m | j < m < |r| :: ScoreOf(r[m]) <= ScoreOf(r[j]);
  }

  lemma DominatingScore(sem: seq<Result>, kw: seq<Result>, w: Weights, a: string, b: string)
    requires w.semantic > 0.0 && w.keyword > 0.0 && DistinctIds(kw)
    requires NoWorse(Rank(sem, a), Rank(sem, b)) && NoWorse(Rank(kw, a), Rank(kw, b))
    requires Better(Rank(sem, a), Rank(sem, b)) || Better(Rank(kw, a), Rank(kw, b))
    ensures Fused(sem, kw, WorthOf(w), a) > Fused(sem, kw, WorthOf(w), b)
  {
    var worth := WorthOf(w);
    PartMonotone(w.semantic, worth.semantic, Rank(sem, a), Rank(sem, b));
    PartMonotone(w.keyword, worth.keyword, Rank(kw, a), Rank(kw, b));
    RankedOnce(kw, worth.keyword, a);
    RankedOnce(kw, worth.keyword, b);
  }

  /** The results that the two searches hand over. */
  ghost predicate FromSearches(sem: seq<Result>, kw: seq<Result>) {
    && (forall i | 0 <= i < |sem| :: sem[i].semanticMatch && !sem[i].keywordMatch)
    && (forall i | 0 <= i < |kw| :: !kw[i].semanticMatch && kw[i].keywordMatch)
  }

  /** In a hybrid search the match flags say which lists an id came from. */
  lemma FlagsTellMembership(sem: seq<Result>, kw: seq<Result>, w: Worth, topK: nat, r: seq<Result>, i: nat)
    requires FromSearches(sem, kw) && IsMerge(sem, kw, w, topK, r) && i < |r|
    ensures (r[i].semanticMatch <==> r[i].id in Ids(sem)) && (r[i].keywordMatch <==> r[i].id in Ids(kw))
  {
    RankInRange(sem, r[i].id);
    RankInRange(kw, r[i].id);
    FirstInRange(kw, r[i].id);
  }
}
