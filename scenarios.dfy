/**
 * Concrete indices: the worked example of the matcher's design (two terms, a
 * size-2 conjunction and the wildcard conjunction), and the collision of
 * dictionary keys built with "%" that makes the as-written translation count
 * one term twice.
 */
module Scenarios {
  import opened DnfIndex
  import opened Query
  import opened ConjMatch
  import opened DocResolve
  import opened DnfSearch

  /** A bucket of size 2 holding conjunction 1 under terms 1 and 2. */
  function PairBucket(): Bucket {
    [TermEntry(1, [Pair(1, true)]), TermEntry(2, [Pair(1, true)])]
  }

  lemma PairBucketWellFormed()
    ensures BucketIds(PairBucket()) == {1}
    ensures WellFormedBucket(PairBucket(), 2)
    ensures ConjTerms(PairBucket(), 1) == {1, 2}
  {
    var list := PairBucket();
    assert BucketIds(list) == {1} by {
      assert list[0] in list && list[0].cList[0] in list[0].cList;
    }
    assert 1 in Ids(list[0].cList) && 1 in Ids(list[1].cList);
    assert list[0] in list && list[1] in list;
    assert ConjTerms(list, 1) == {1, 2};
  }

  /** Term A=1, B=1 is term 2; conjunction 1 = A AND B has documents 100 and 101; wildcard conjunction 0 has 200. */
  function ExampleIndex(): Handler {
    Handler(
      map["A%1" := 1, "B%1" := 2],
      [ [TermEntry(0, [Pair(0, true)])],
        [],
        PairBucket() ],
      [[200], [100, 101]])
  }

  /** Today every document is in effect except 101. */
  function ExampleCover(d: nat): Coverage {
    Coverage(d != 101, None)
  }

  lemma ExampleBucketIds()
    ensures BucketIds(ExampleIndex().conjSzRvs[0]) == {0}
    ensures BucketIds(ExampleIndex().conjSzRvs[1]) == {}
    ensures BucketIds(ExampleIndex().conjSzRvs[2]) == {1}
  {
    var b: seq<Bucket> := ExampleIndex().conjSzRvs;
    assert b[0][0] in b[0] && b[0][0].cList[0] in b[0][0].cList;
    PairBucketWellFormed();
  }

  lemma ExampleIndexValid()
    ensures ValidIndex(ExampleIndex())
  {
    var h := ExampleIndex();
    var b: seq<Bucket> := h.conjSzRvs;
    ExampleBucketIds();
    forall i, e, p | 0 <= i < |b| && e in b[i] && p in e.cList
      ensures p.belong
    {
      assert i == 0 || i == 2;
      if i == 0 {
        assert e == b[0][0];
      } else {
        assert e == b[2][0] || e == b[2][1];
      }
    }
    forall i, c | 0 <= i < |b| && c in BucketIds(b[i])
      ensures c < |h.conjRvs|
    {
      assert i == 0 || i == 1 || i == 2;
    }
    assert SortedByTerm(b[2]);
  }

  lemma ExampleMatches()
    ensures MatchedConjs(ExampleIndex().conjSzRvs, [1, 2]) == {0, 1}
    ensures MatchedConjs(ExampleIndex().conjSzRvs, [1]) == {0}
  {
    var b: seq<Bucket> := ExampleIndex().conjSzRvs;
    ExampleBucketIds();
    assert [1, 2][..1] == [1];
    assert Hits(b[2], [1, 2], 1) == 2;
    assert BucketMatch(b[0], 0, [1, 2]) == {0};
    assert BucketMatch(b[1], 1, [1, 2]) == {};
    assert BucketMatch(b[2], 2, [1, 2]) == {1};
    assert BucketMatch(b[0], 0, [1]) == {0};
    assert BucketMatch(b[1], 1, [1]) == {};
  }

  /** Conditions A=1 and B=1 translate to terms 1 and 2. */
  lemma ExampleTranslation()
    ensures FoundIds([Cond("A", "1"), Cond("B", "1")], ExampleIndex().termMap) == [1, 2]
  {
    var q := [Cond("A", "1"), Cond("B", "1")];
    assert TermKey(q[0]) == "A%1" && TermKey(q[1]) == "B%1";
    assert q[..1] == [q[0]] && [q[0]][..0] == [];
  }

  /** The documents of the example's conjunctions 0 and 1 that are in effect. */
  lemma ExampleDocs(h: Handler, terms: seq<int>)
    requires |h.conjSzRvs| > 0 && h.conjRvs == ExampleIndex().conjRvs
    ensures MatchedConjs(h.conjSzRvs, terms) == {0, 1} ==> SearchDocs(h, terms, ExampleCover) == {100, 200}
    ensures MatchedConjs(h.conjSzRvs, terms) == {0} ==> SearchDocs(h, terms, ExampleCover) == {200}
  {
    var m := MatchedConjs(h.conjSzRvs, terms);
    assert h.conjRvs[0] == [200] && h.conjRvs[1] == [100, 101];
    forall d | d in SearchDocs(h, terms, ExampleCover)
      ensures d == 200 || (1 in m && d == 100)
    {
      var c :| c in m && c < |h.conjRvs| && d in h.conjRvs[c] && ExampleCover(d).ok;
      if c == 0 {
        assert d in [200];
      } else {
        assert c == 1 && d in [100, 101] && d != 101;
      }
    }
    if 0 in m {
      assert 200 in h.conjRvs[0] && ExampleCover(200).ok;
      assert 200 in SearchDocs(h, terms, ExampleCover);
    }
    if 1 in m {
      assert 100 in h.conjRvs[1] && ExampleCover(100).ok;
      assert 100 in SearchDocs(h, terms, ExampleCover);
    }
  }

  /** Query A, B: the matched conjunctions are 0 and 1, and 101, not in effect, is dropped. */
  lemma BothTermsMatchBoth()
    ensures MatchedConjs(ExampleIndex().conjSzRvs, [1, 2]) == {0, 1}
    ensures SearchDocs(ExampleIndex(), [1, 2], ExampleCover) == {100, 200}
  {
    ExampleMatches();
    ExampleDocs(ExampleIndex(), [1, 2]);
  }

  /** Query A alone never matches conjunction 1, but still matches the wildcard. */
  lemma OneTermMatchesWildcardOnly()
    ensures MatchedConjs(ExampleIndex().conjSzRvs, [1]) == {0}
    ensures SearchDocs(ExampleIndex(), [1], ExampleCover) == {200}
  {
    ExampleMatches();
    ExampleDocs(ExampleIndex(), [1]);
  }

  // ---------------------------------------------------------------------------
  // Dictionary keys joined with "%" collide.

  /** Two conditions with different keys whose joined dictionary keys are both "a%b%c". */
  function CollidingConds(): seq<Cond> {
    [Cond("a%b", "c"), Cond("a", "b%c")]
  }

  /** Conjunction 1 = (a%b=c) AND (d=e), terms 1 and 2, with document 100. */
  function CollisionIndex(): Handler {
    Handler(
      map["a%b%c" := 1, "d%e" := 2],
      [ [],
        [],
        PairBucket() ],
      [[], [100]])
  }

  /** As written, the two conditions pass the key check and both translate to term 1. */
  lemma PercentKeysCollide()
    ensures DistinctKeys(CollidingConds())
    ensures FoundIds(CollidingConds(), CollisionIndex().termMap) == [1, 1]
  {
    var q := CollidingConds();
    assert TermKey(q[0]) == "a%b%c" && TermKey(q[1]) == "a%b%c";
    assert q[..1] == [q[0]] && [q[0]][..0] == [];
  }

  /**
   * As written, term 1 counted twice reaches the threshold of bucket 2, so
   * conjunction 1 matches although its term 2 is not in the query.
   */
  lemma CollisionMatches()
    ensures 1 in MatchedConjs(CollisionIndex().conjSzRvs, [1, 1])
  {
    var b: seq<Bucket> := CollisionIndex().conjSzRvs;
    var list := b[2];
    PairBucketWellFormed();
    assert [1, 1][..1] == [1];
    assert Hits(list, [1, 1], 1) == 2;
    assert 1 in BucketMatch(list, 2, [1, 1]);
    assert MatchedConjs(b, [1, 1]) == MatchUpTo(b, [1, 1], 3);
  }

  lemma RepeatedTermFalseMatch()
    ensures WellFormedBucket(CollisionIndex().conjSzRvs[2], 2)
    ensures ConjTerms(CollisionIndex().conjSzRvs[2], 1) == {1, 2}
    ensures 2 !in FoundIds(CollidingConds(), CollisionIndex().termMap)
    ensures 1 in MatchedConjs(CollisionIndex().conjSzRvs, FoundIds(CollidingConds(), CollisionIndex().termMap))
  {
    PercentKeysCollide();
    PairBucketWellFormed();
    CollisionMatches();
  }

  /** With the corrected translation term 1 is passed once and conjunction 1 does not match. */
  lemma DistinctTranslationRejects()
    ensures FoundDistinctIds(CollidingConds(), CollisionIndex().termMap) == [1]
    ensures 1 !in MatchedConjs(CollisionIndex().conjSzRvs, FoundDistinctIds(CollidingConds(), CollisionIndex().termMap))
  {
    var b: seq<Bucket> := CollisionIndex().conjSzRvs;
    var q := CollidingConds();
    assert TermKey(q[0]) == "a%b%c" && TermKey(q[1]) == "a%b%c";
    assert q[..1] == [q[0]] && [q[0]][..0] == [];
    assert BucketIds(b[0]) == {} && BucketIds(b[1]) == {};
    assert MatchedConjs(b, [1]) == {};
  }
}
