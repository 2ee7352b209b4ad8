/**
 * The entry point `Search` and `doSearch`: validate the conditions, translate
 * them to term ids, match conjunctions, and resolve their valid documents.
 */
module DnfSearch {
  import opened DnfIndex
  import opened Query
  import opened ConjMatch
  import opened DocResolve

  /** The documents a search over `terms` yields: the valid documents of the matched conjunctions. */
  function SearchDocs(h: Handler, terms: seq<int>, cover: nat -> Coverage): (r: set<nat>)
    requires |h.conjSzRvs| > 0
    ensures forall d :: d in r ==> cover(d).ok
  {
    set c, d | c in MatchedConjs(h.conjSzRvs, terms) && c < |h.conjRvs| && d in h.conjRvs[c] && cover(d).ok :: d
  }

  /** `doSearch`: match the conjunctions, then resolve them; no match gives no documents. */
  method DoSearch(h: Handler, terms: seq<int>, cover: nat -> Coverage) returns (docs: seq<nat>)
    requires ValidIndex(h)
    ensures Distinct(docs)
    ensures forall d :: d in docs <==> d in SearchDocs(h, terms, cover)
  {
    var conjs := GetConjs(h, terms);
    if |conjs| == 0 {
      return [];
    }
    forall k | 0 <= k < |conjs|
      ensures conjs[k] < |h.conjRvs|
    {
      MatchedAreStored(h.conjSzRvs, terms, conjs[k]);
    }
    docs := GetDocs(h, conjs, cover);
    forall d | d in SearchDocs(h, terms, cover)
      ensures d in docs
    {
      var c :| c in MatchedConjs(h.conjSzRvs, terms) && c < |h.conjRvs| && d in h.conjRvs[c] && cover(d).ok;
      var k :| 0 <= k < |conjs| && conjs[k] == c;
    }
  }

  /**
   * `Search`: refuse an empty list or a repeated key, drop the conditions not
   * in the term dictionary, refuse when none is left, and otherwise return the
   * documents of the ids found, in condition order.
   */
  method Search(h: Handler, conds: seq<Cond>, cover: nat -> Coverage) returns (r: Result<seq<nat>, SearchError>)
    requires ValidIndex(h)
    ensures |conds| == 0 ==> r == Failure(EmptyQuery)
    ensures forall j :: IsFirstDuplicate(conds, j) ==> r == Failure(DuplicateKey(conds[j].key))
    ensures |conds| > 0 && DistinctKeys(conds) && (forall c :: c in conds ==> TermKey(c) !in h.termMap) ==>
      r == Failure(NoKnownTerms)
    ensures r.Success? <==>
      |conds| > 0 && DistinctKeys(conds) && exists c :: c in conds && TermKey(c) in h.termMap
    ensures r.Success? ==>
      Distinct(r.value) && forall d :: d in r.value <==> d in SearchDocs(h, FoundIds(conds, h.termMap), cover)
  {
    var err := SearchCondCheck(conds);
    if err.Some? {
      return Failure(err.value);
    }
    var termids: seq<int> := [];
    for i := 0 to |conds|
      invariant termids == FoundIds(conds[..i], h.termMap)
    {
      assert conds[..i + 1][..i] == conds[..i];
      var key := conds[i].key + "%" + conds[i].val;
      if key in h.termMap {
        termids := termids + [h.termMap[key]];
      }
    }
    assert conds[..|conds|] == conds;
    FoundIdsMembers(conds, h.termMap);
    if |termids| == 0 {
      return Failure(NoKnownTerms);
    }
    var docs := DoSearch(h, termids, cover);
    return Success(docs);
  }

  /**
   * `Search` with the translation corrected to pass each term id once, so that
   * two conditions whose dictionary keys coincide cannot count one term twice.
   */
  method SearchDistinct(h: Handler, conds: seq<Cond>, cover: nat -> Coverage) returns (r: Result<seq<nat>, SearchError>)
    requires ValidIndex(h)
    ensures |conds| == 0 ==> r == Failure(EmptyQuery)
    ensures forall j :: IsFirstDuplicate(conds, j) ==> r == Failure(DuplicateKey(conds[j].key))
    ensures |conds| > 0 && DistinctKeys(conds) && (forall c :: c in conds ==> TermKey(c) !in h.termMap) ==>
      r == Failure(NoKnownTerms)
    ensures r.Success? <==>
      |conds| > 0 && DistinctKeys(conds) && exists c :: c in conds && TermKey(c) in h.termMap
    ensures r.Success? ==>
      Distinct(r.value) && forall d :: d in r.value <==> d in SearchDocs(h, FoundDistinctIds(conds, h.termMap), cover)
  {
    var err := SearchCondCheck(conds);
    if err.Some? {
      return Failure(err.value);
    }
    var termids: seq<int> := [];
    for i := 0 to |conds|
      invariant termids == FoundDistinctIds(conds[..i], h.termMap)
    {
      assert conds[..i + 1][..i] == conds[..i];
      var key := conds[i].key + "%" + conds[i].val;
      if key in h.termMap && h.termMap[key] !in termids {
        termids := termids + [h.termMap[key]];
      }
    }
    assert conds[..|conds|] == conds;
    FoundDistinctIdsSpec(conds, h.termMap);
    if |termids| == 0 {
      return Failure(NoKnownTerms);
    }
    var docs := DoSearch(h, termids, cover);
    return Success(docs);
  }

  /**
   * With the corrected translation the whole search is an exact AND: a
   * conjunction stored only in well-formed bucket `k >= 1` is matched iff
   * each of its terms is the dictionary id of some query condition.
   */
  lemma SearchDistinctExactAnd(h: Handler, conds: seq<Cond>, k: nat, c: nat)
    requires 1 <= k < |h.conjSzRvs|
    requires WellFormedBucket(h.conjSzRvs[k], k)
    requires forall i :: 0 <= i < |h.conjSzRvs| ==> NoRepeatedConj(h.conjSzRvs[i])
    requires c in BucketIds(h.conjSzRvs[k])
    requires forall i :: 0 <= i < |h.conjSzRvs| && i != k ==> c !in BucketIds(h.conjSzRvs[i])
    ensures c in MatchedConjs(h.conjSzRvs, FoundDistinctIds(conds, h.termMap)) <==>
      forall t :: t in ConjTerms(h.conjSzRvs[k], c) ==> t in FoundIds(conds, h.termMap)
  {
    var ids := FoundDistinctIds(conds, h.termMap);
    FoundDistinctIdsSpec(conds, h.termMap);
    ConjMatchesIffAllTermsPresent(h.conjSzRvs, ids, k, c);
    assert forall t :: t in TermSet(ids) <==> t in FoundIds(conds, h.termMap);
  }
}
