/**
 * The document resolver (`getDocs`): expand the matched conjunctions to their
 * documents, keep those whose temporal-validity predicate holds today, and
 * return each kept document once. The per-document goroutines are modelled as
 * a sequential loop over the same (conjunction, document) pairs.
 */
module DocResolve {
  import opened DnfIndex

  /** The documents of `docs` that the validity predicate accepts. */
  function ValidDocs(docs: seq<nat>, cover: nat -> Coverage): set<nat> {
    if docs == [] then {}
    else
      var d := docs[|docs| - 1];
      ValidDocs(docs[..|docs| - 1], cover) + (if cover(d).ok then {d} else {})
  }

  /** The accepted documents of the conjunctions `conjs`, in the order `getDocs` visits them. */
  function ResolvedDocs(conjRvs: seq<seq<nat>>, conjs: seq<nat>, cover: nat -> Coverage): set<nat>
    requires forall k :: 0 <= k < |conjs| ==> conjs[k] < |conjRvs|
  {
    if conjs == [] then {}
    else ResolvedDocs(conjRvs, conjs[..|conjs| - 1], cover) + ValidDocs(conjRvs[conjs[|conjs| - 1]], cover)
  }

  lemma {:induction false} ValidDocsMembers(docs: seq<nat>, cover: nat -> Coverage)
    ensures forall d :: d in ValidDocs(docs, cover) <==> d in docs && cover(d).ok
  {
    if docs != [] {
      var front := docs[..|docs| - 1];
      ValidDocsMembers(front, cover);
      assert docs == front + [docs[|docs| - 1]];
    }
  }

  /**
   * A document is resolved iff some listed conjunction has it and its
   * predicate reports it valid; the error part of the report plays no role.
   */
  lemma {:induction false} ResolvedDocsMembers(conjRvs: seq<seq<nat>>, conjs: seq<nat>, cover: nat -> Coverage)
    requires forall k :: 0 <= k < |conjs| ==> conjs[k] < |conjRvs|
    ensures forall d :: d in ResolvedDocs(conjRvs, conjs, cover) <==>
      exists k :: 0 <= k < |conjs| && d in conjRvs[conjs[k]] && cover(d).ok
  {
    if conjs != [] {
      var front := conjs[..|conjs| - 1];
      var last := conjs[|conjs| - 1];
      ResolvedDocsMembers(conjRvs, front, cover);
      ValidDocsMembers(conjRvs[last], cover);
      forall d | d in ResolvedDocs(conjRvs, conjs, cover)
        ensures exists k :: 0 <= k < |conjs| && d in conjRvs[conjs[k]] && cover(d).ok
      {
        if d in ResolvedDocs(conjRvs, front, cover) {
          var k :| 0 <= k < |front| && d in conjRvs[front[k]] && cover(d).ok;
          assert conjs[k] == front[k];
        } else {
          assert d in conjRvs[conjs[|conjs| - 1]];
        }
      }
      forall d | exists k :: 0 <= k < |conjs| && d in conjRvs[conjs[k]] && cover(d).ok
        ensures d in ResolvedDocs(conjRvs, conjs, cover)
      {
        var k :| 0 <= k < |conjs| && d in conjRvs[conjs[k]] && cover(d).ok;
        if k < |front| {
          assert front[k] == conjs[k];
        }
      }
    }
  }

  /** Two predicates that agree on their verdicts resolve the same documents, whatever errors they report. */
  lemma PredicateErrorIgnored(conjRvs: seq<seq<nat>>, conjs: seq<nat>, cover1: nat -> Coverage, cover2: nat -> Coverage)
    requires forall k :: 0 <= k < |conjs| ==> conjs[k] < |conjRvs|
    requires forall d :: cover1(d).ok == cover2(d).ok
    ensures ResolvedDocs(conjRvs, conjs, cover1) == ResolvedDocs(conjRvs, conjs, cover2)
  {
    ResolvedDocsMembers(conjRvs, conjs, cover1);
    ResolvedDocsMembers(conjRvs, conjs, cover2);
  }

  /**
   * `getDocs`: each valid document of the listed conjunctions, once. A
   * conjunction without documents is skipped; a predicate error is only
   * logged, so a document is kept exactly when its verdict is true.
   */
  method GetDocs(h: Handler, conjs: seq<nat>, cover: nat -> Coverage) returns (docs: seq<nat>)
    requires forall k :: 0 <= k < |conjs| ==> conjs[k] < |h.conjRvs|
    ensures Distinct(docs)
    ensures forall d :: d in docs <==>
      exists k :: 0 <= k < |conjs| && d in h.conjRvs[conjs[k]] && cover(d).ok
  {
    var found: set<nat> := {};
    for i := 0 to |conjs|
      invariant found == ResolvedDocs(h.conjRvs, conjs[..i], cover)
    {
      assert conjs[..i + 1][..i] == conjs[..i];
      var doclist := h.conjRvs[conjs[i]];
      if |doclist| == 0 {
        continue;
      }
      for j := 0 to |doclist|
        invariant found == ResolvedDocs(h.conjRvs, conjs[..i], cover) + ValidDocs(doclist[..j], cover)
      {
        assert doclist[..j + 1][..j] == doclist[..j];
        var verdict := cover(doclist[j]);
        if verdict.ok {
          found := found + {doclist[j]};
        }
      }
      assert doclist[..|doclist|] == doclist;
    }
    assert conjs[..|conjs|] == conjs;
    ResolvedDocsMembers(h.conjRvs, conjs, cover);
    docs := ToSlice(found);
  }
}
