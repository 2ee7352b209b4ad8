/**
 * Query validation (`searchCondCheck`) and the translation of conditions to
 * term ids that `Search` does before matching.
 */
module Query {
  import opened DnfIndex

  function KeysOf(conds: seq<Cond>): set<string> {
    set c | c in conds :: c.key
  }

  predicate DistinctKeys(conds: seq<Cond>) {
    forall i, j :: 0 <= i < j < |conds| ==> conds[i].key != conds[j].key
  }

  /** `j` is the first position whose key already occurs earlier in `conds`. */
  predicate IsFirstDuplicate(conds: seq<Cond>, j: int) {
    0 < j < |conds| && DistinctKeys(conds[..j]) && conds[j].key in KeysOf(conds[..j])
  }

  /** A list whose keys are not distinct has a first repeated key. */
  lemma {:induction false} FirstDuplicateExists(conds: seq<Cond>)
    requires !DistinctKeys(conds)
    ensures exists j :: IsFirstDuplicate(conds, j)
  {
    var last := |conds| - 1;
    var front := conds[..last];
    if DistinctKeys(front) {
      var i, j :| 0 <= i < j < |conds| && conds[i].key == conds[j].key;
      assert j == last;
      assert front[i] == conds[i];
      assert IsFirstDuplicate(conds, last);
    } else {
      FirstDuplicateExists(front);
      var j :| IsFirstDuplicate(front, j);
      assert conds[..j] == front[..j];
      assert IsFirstDuplicate(conds, j);
    }
  }

  /** A key repeated before position `j1` is still repeated in every longer prefix. */
  lemma PrefixKeepsRepeat(conds: seq<Cond>, j1: int, j2: int)
    requires 0 < j1 < j2 <= |conds|
    requires conds[j1].key in KeysOf(conds[..j1])
    ensures !DistinctKeys(conds[..j2])
  {
    var c :| c in conds[..j1] && c.key == conds[j1].key;
    var i :| 0 <= i < j1 && conds[..j1][i] == c;
    assert conds[..j2][i].key == conds[..j2][j1].key;
  }

  /** The first repeated key is at one position only. */
  lemma FirstDuplicateUnique(conds: seq<Cond>, j1: int, j2: int)
    requires IsFirstDuplicate(conds, j1) && IsFirstDuplicate(conds, j2)
    ensures j1 == j2
  {
    if j1 < j2 {
      PrefixKeepsRepeat(conds, j1, j2);
    } else if j2 < j1 {
      PrefixKeepsRepeat(conds, j2, j1);
    }
  }

  /**
   * `searchCondCheck`: an empty list is refused, then the keys are entered into
   * a seen-keys map in order and the first key seen twice is reported.
   */
  method SearchCondCheck(conds: seq<Cond>) returns (err: Option<SearchError>)
    ensures |conds| == 0 ==> err == Some(EmptyQuery)
    ensures err == None <==> |conds| > 0 && DistinctKeys(conds)
    ensures forall j :: IsFirstDuplicate(conds, j) ==> err == Some(DuplicateKey(conds[j].key))
  {
    if |conds| == 0 {
      return Some(EmptyQuery);
    }
    var m: map<string, bool> := map[];
    for i := 0 to |conds|
      invariant m.Keys == KeysOf(conds[..i])
      invariant DistinctKeys(conds[..i])
    {
      if conds[i].key in m {
        assert IsFirstDuplicate(conds, i);
        forall j | IsFirstDuplicate(conds, j)
          ensures j == i
        {
          FirstDuplicateUnique(conds, j, i);
        }
        var c :| c in conds[..i] && c.key == conds[i].key;
        var k :| 0 <= k < i && conds[..i][k] == c;
        assert conds[k].key == conds[i].key;
        return Some(DuplicateKey(conds[i].key));
      }
      m := m[conds[i].key := true];
      assert conds[..i + 1] == conds[..i] + [conds[i]];
    }
    assert conds[..|conds|] == conds;
    return None;
  }

  /** The dictionary key of a condition: its key and value joined by "%". */
  function TermKey(c: Cond): string {
    c.key + "%" + c.val
  }

  /** The ids of the conditions found in `termMap`, in condition order; the others are dropped. */
  function FoundIds(conds: seq<Cond>, termMap: map<string, int>): (ids: seq<int>)
    ensures |ids| <= |conds|
  {
    if conds == [] then []
    else
      var rest := FoundIds(conds[..|conds| - 1], termMap);
      var k := TermKey(conds[|conds| - 1]);
      if k in termMap then rest + [termMap[k]] else rest
  }

  /** Translation keeps condition order: it distributes over concatenation. */
  lemma {:induction false} FoundIdsAppend(c1: seq<Cond>, c2: seq<Cond>, termMap: map<string, int>)
    ensures FoundIds(c1 + c2, termMap) == FoundIds(c1, termMap) + FoundIds(c2, termMap)
  {
    if c2 == [] {
      assert c1 + c2 == c1;
    } else {
      var front := c2[..|c2| - 1];
      assert (c1 + c2)[..|c1 + c2| - 1] == c1 + front;
      FoundIdsAppend(c1, front, termMap);
    }
  }

  /** An id is passed on exactly when some condition's dictionary key maps to it. */
  lemma {:induction false} FoundIdsMembers(conds: seq<Cond>, termMap: map<string, int>)
    ensures forall id :: id in FoundIds(conds, termMap) <==>
      exists c :: c in conds && TermKey(c) in termMap && termMap[TermKey(c)] == id
    ensures FoundIds(conds, termMap) == [] <==> forall c :: c in conds ==> TermKey(c) !in termMap
  {
    if conds != [] {
      var front := conds[..|conds| - 1];
      var last := conds[|conds| - 1];
      FoundIdsMembers(front, termMap);
      assert conds == front + [last];
      forall c | c in conds
        ensures c in front || c == last
      {
      }
      if TermKey(last) in termMap {
        assert termMap[TermKey(last)] in FoundIds(conds, termMap);
      }
    }
  }

  /**
   * The translation with repeated ids dropped: a condition whose id was
   * already collected adds nothing.
   */
  function FoundDistinctIds(conds: seq<Cond>, termMap: map<string, int>): (ids: seq<int>)
    ensures |ids| <= |conds|
  {
    if conds == [] then []
    else
      var rest := FoundDistinctIds(conds[..|conds| - 1], termMap);
      var k := TermKey(conds[|conds| - 1]);
      if k in termMap && termMap[k] !in rest then rest + [termMap[k]] else rest
  }

  /** The deduplicated translation has no repeats and the same ids as the plain one. */
  lemma {:induction false} FoundDistinctIdsSpec(conds: seq<Cond>, termMap: map<string, int>)
    ensures Distinct(FoundDistinctIds(conds, termMap))
    ensures forall id :: id in FoundDistinctIds(conds, termMap) <==> id in FoundIds(conds, termMap)
    ensures FoundDistinctIds(conds, termMap) == [] <==> forall c :: c in conds ==> TermKey(c) !in termMap
  {
    if conds != [] {
      FoundDistinctIdsSpec(conds[..|conds| - 1], termMap);
    }
    FoundIdsMembers(conds, termMap);
    if FoundIds(conds, termMap) != [] {
      assert FoundIds(conds, termMap)[0] in FoundIds(conds, termMap);
    }
  }
}
