/**
 * The conjunction matcher (`getConjs`): for each size bucket that a query of
 * this many terms can satisfy, binary-search every query term, count the hits
 * per conjunction, and keep the conjunctions whose count reaches the bucket's
 * size. Bucket 0 also admits the conjunctions of its first (wildcard) entry.
 */
module ConjMatch {
  import opened DnfIndex

  // ---------------------------------------------------------------------------
  // The counting set, abstractly: a hit count per conjunction id.

  /** The count of `c`; a key that was never added counts 0. */
  function Get(counts: map<nat, nat>, c: nat): nat {
    if c in counts then counts[c] else 0
  }

  /** `CountSet.Add` of a pair with `belong == true`: one more hit for `c`. */
  function Add(counts: map<nat, nat>, c: nat): (r: map<nat, nat>)
    ensures r.Keys == counts.Keys + {c}
  {
    counts[c := Get(counts, c) + 1]
  }

  // ---------------------------------------------------------------------------
  // Specification of one bucket's counting pass.

  /** How many pairs of `ps` name conjunction `c`. */
  function Occ(ps: seq<Pair>, c: nat): (r: nat)
    ensures r <= |ps|
    ensures r > 0 <==> c in Ids(ps)
  {
    if ps == [] then 0
    else
      assert ps == ps[..|ps| - 1] + [ps[|ps| - 1]];
      Occ(ps[..|ps| - 1], c) + (if ps[|ps| - 1].conjId == c then 1 else 0)
  }

  /** The membership list of the first entry for `tid`; empty when the bucket has none. */
  function Lookup(list: Bucket, tid: int): seq<Pair> {
    if list == [] then []
    else if list[0].termId == tid then list[0].cList
    else Lookup(list[1..], tid)
  }

  /** How many hits the query terms give conjunction `c` in a bucket. */
  function Hits(list: Bucket, terms: seq<int>, c: nat): nat {
    if terms == [] then 0
    else Hits(list, terms[..|terms| - 1], c) + Occ(Lookup(list, terms[|terms| - 1]), c)
  }

  /** The count of `c` after the pass over bucket `size`, wildcard entry included for bucket 0. */
  function Total(list: Bucket, size: nat, terms: seq<int>, c: nat): nat {
    Hits(list, terms, c) + (if size == 0 && |list| > 0 then Occ(list[0].cList, c) else 0)
  }

  /** The conjunctions that the counting set of bucket `size` lets through. */
  function BucketMatch(list: Bucket, size: nat, terms: seq<int>): set<nat> {
    set c | c in BucketIds(list) && Total(list, size, terms, c) > 0 && Total(list, size, terms, c) >= size
  }

  /** The largest bucket scanned: the query size, clamped to the last bucket. */
  function Bound(b: seq<Bucket>, terms: seq<int>): (n: nat)
    requires |b| > 0
    ensures n < |b| && n <= |terms|
    ensures n == |terms| || n == |b| - 1
  {
    if |terms| >= |b| then |b| - 1 else |terms|
  }

  /** The union of the matches of buckets `0 .. k - 1`. */
  function MatchUpTo(b: seq<Bucket>, terms: seq<int>, k: nat): set<nat>
    requires k <= |b|
  {
    if k == 0 then {} else MatchUpTo(b, terms, k - 1) + BucketMatch(b[k - 1], k - 1, terms)
  }

  /** What `getConjs` returns, as a set: the union over buckets `0 .. Bound`. */
  function MatchedConjs(b: seq<Bucket>, terms: seq<int>): set<nat>
    requires |b| > 0
  {
    MatchUpTo(b, terms, Bound(b, terms) + 1)
  }

  // ---------------------------------------------------------------------------
  // The algorithm.

  /**
   * `sort.Search(len(list), func(i) { list[i].termId >= tid })`: the least
   * index whose term id is at least `tid`, or `|list|` if there is none.
   */
  method SortSearch(list: Bucket, tid: int) returns (idx: nat)
    requires SortedByTerm(list)
    ensures idx <= |list|
    ensures forall k :: 0 <= k < idx ==> list[k].termId < tid
    ensures forall k :: idx <= k < |list| ==> list[k].termId >= tid
  {
    var lo, hi := 0, |list|;
    while lo < hi
      invariant 0 <= lo <= hi <= |list|
      invariant forall k :: 0 <= k < lo ==> list[k].termId < tid
      invariant forall k :: hi <= k < |list| ==> list[k].termId >= tid
    {
      var mid := (lo + hi) / 2;
      if list[mid].termId < tid {
        lo := mid + 1;
      } else {
        hi := mid;
      }
    }
    idx := lo;
  }

  /**
   * The `countSet.Add` loop over one membership list: every pair adds a hit
   * for its conjunction (all pairs carry `belong == true`).
   */
  method AddPairs(counts: map<nat, nat>, ps: seq<Pair>, ghost ids: set<nat>) returns (r: map<nat, nat>)
    requires forall c :: c in counts ==> counts[c] > 0 && c in ids
    requires Ids(ps) <= ids
    ensures forall c :: Get(r, c) == Get(counts, c) + Occ(ps, c)
    ensures forall c :: c in r ==> r[c] > 0 && c in ids
  {
    r := counts;
    for j := 0 to |ps|
      invariant forall c :: Get(r, c) == Get(counts, c) + Occ(ps[..j], c)
      invariant forall c :: c in r ==> r[c] > 0 && c in ids
    {
      assert ps[j] in ps;
      assert ps[..j + 1][..j] == ps[..j];
      r := Add(r, ps[j].conjId);
    }
    assert ps[..|ps|] == ps;
  }

  /**
   * The term loop of one bucket's pass: binary-search each query term and
   * count the hits of the pairs listed under it.
   */
  method CountTerms(termlist: Bucket, terms: seq<int>) returns (countSet: map<nat, nat>)
    requires SortedByTerm(termlist)
    ensures forall c :: Get(countSet, c) == Hits(termlist, terms, c)
    ensures forall c :: c in countSet ==> countSet[c] > 0 && c in BucketIds(termlist)
  {
    countSet := map[];
    for k := 0 to |terms|
      invariant forall c :: Get(countSet, c) == Hits(termlist, terms[..k], c)
      invariant forall c :: c in countSet ==> countSet[c] > 0 && c in BucketIds(termlist)
    {
      var tid := terms[k];
      var idx := SortSearch(termlist, tid);
      SearchedEntryIsLookup(termlist, tid, idx);
      assert terms[..k + 1][..k] == terms[..k];
      if idx < |termlist| && termlist[idx].termId == tid {
        EntryIdsStored(termlist, idx);
        countSet := AddPairs(countSet, termlist[idx].cList, BucketIds(termlist));
      }
    }
    assert terms[..|terms|] == terms;
  }

  /**
   * One bucket's pass of `getConjs`: count the query terms' hits, and for
   * bucket 0 add the wildcard entry.
   */
  method CountBucket(termlist: Bucket, size: nat, terms: seq<int>) returns (countSet: map<nat, nat>)
    requires |termlist| > 0
    requires SortedByTerm(termlist)
    requires size == 0 ==> forall p :: p in termlist[0].cList ==> p.belong
    ensures forall c :: Get(countSet, c) == Total(termlist, size, terms, c)
    ensures forall c :: c in countSet ==> countSet[c] > 0 && c in BucketIds(termlist)
  {
    countSet := CountTerms(termlist, terms);
    if size == 0 {
      var wild := termlist[0].cList;
      assert forall j :: 0 <= j < |wild| ==> wild[j].belong;
      EntryIdsStored(termlist, 0);
      countSet := AddPairs(countSet, wild, BucketIds(termlist));
    }
  }

  /**
   * `getConjs`: the distinct conjunction ids matched by the query terms,
   * reading only buckets `0 .. min(|terms|, |conjSzRvs| - 1)`.
   */
  method GetConjs(h: Handler, terms: seq<int>) returns (conjs: seq<nat>)
    requires |h.conjSzRvs| > 0
    requires SortedBuckets(h.conjSzRvs)
    requires AllBelong(h.conjSzRvs)
    ensures Distinct(conjs)
    ensures forall c :: c in conjs <==> c in MatchedConjs(h.conjSzRvs, terms)
  {
    var b := h.conjSzRvs;
    var n := |terms|;
    if n >= |b| {
      n := |b| - 1;
    }
    var conjSet: set<nat> := {};
    for i := 0 to n + 1
      invariant conjSet == MatchUpTo(b, terms, i)
    {
      var survivors := ScanBucket(b, i, terms);
      conjSet := conjSet + survivors;
    }
    assert n == Bound(b, terms);
    conjs := ToSlice(conjSet);
  }

  /**
   * The body of `getConjs`'s bucket loop: skip an empty bucket, otherwise
   * count it and drain the counting set of the ids that reach its size.
   */
  method ScanBucket(b: seq<Bucket>, i: nat, terms: seq<int>) returns (survivors: set<nat>)
    requires i < |b|
    requires SortedBuckets(b)
    requires AllBelong(b)
    ensures survivors == BucketMatch(b[i], i, terms)
  {
    var termlist := b[i];
    if |termlist| == 0 {
      assert BucketIds(termlist) == {};
      return {};
    }
    if i == 0 {
      BelongInBucket(b, 0);
    }
    assert SortedByTerm(termlist);
    var countSet := CountBucket(termlist, i, terms);
    survivors := set c | c in countSet && countSet[c] >= i;
    SurvivorsMatch(countSet, termlist, i, terms);
  }

  lemma BelongInBucket(b: seq<Bucket>, i: nat)
    requires AllBelong(b)
    requires i < |b| && |b[i]| > 0
    ensures forall p :: p in b[i][0].cList ==> p.belong
  {
    assert b[i][0] in b[i];
  }

  /** Draining the counting set after a bucket's pass yields that bucket's match. */
  lemma SurvivorsMatch(counts: map<nat, nat>, list: Bucket, size: nat, terms: seq<int>)
    requires forall c :: Get(counts, c) == Total(list, size, terms, c)
    requires forall c :: c in counts ==> counts[c] > 0 && c in BucketIds(list)
    ensures (set c | c in counts && counts[c] >= size) == BucketMatch(list, size, terms)
  {
  }

  /** Every id listed by an entry of a bucket is stored in that bucket. */
  lemma EntryIdsStored(list: Bucket, k: nat)
    requires k < |list|
    ensures Ids(list[k].cList) <= BucketIds(list)
  {
    assert list[k] in list;
  }

  // ---------------------------------------------------------------------------
  // The binary search finds the entry the specification looks up.

  lemma {:induction false} LookupFirst(list: Bucket, tid: int, k: nat)
    requires k < |list| && list[k].termId == tid
    requires forall j :: 0 <= j < k ==> list[j].termId != tid
    ensures Lookup(list, tid) == list[k].cList
  {
    if k > 0 {
      LookupFirst(list[1..], tid, k - 1);
    }
  }

  lemma {:induction false} LookupMissing(list: Bucket, tid: int)
    requires forall k :: 0 <= k < |list| ==> list[k].termId != tid
    ensures Lookup(list, tid) == []
  {
    if list != [] {
      LookupMissing(list[1..], tid);
    }
  }

  /** What `Lookup` returns is empty or the list of an entry for `tid`. */
  lemma {:induction false} LookupIsEntry(list: Bucket, tid: int)
    ensures Lookup(list, tid) == [] ||
      exists e :: e in list && e.termId == tid && e.cList == Lookup(list, tid)
  {
    if list != [] && list[0].termId != tid {
      LookupIsEntry(list[1..], tid);
    }
  }

  /**
   * On a sorted bucket the index `sort.Search` returns holds `tid` exactly
   * when some entry does, and its list is the one the specification looks up.
   */
  lemma SearchedEntryIsLookup(list: Bucket, tid: int, idx: nat)
    requires SortedByTerm(list)
    requires idx <= |list|
    requires forall k :: 0 <= k < idx ==> list[k].termId < tid
    requires forall k :: idx <= k < |list| ==> list[k].termId >= tid
    ensures (idx < |list| && list[idx].termId == tid) <==>
      exists k :: 0 <= k < |list| && list[k].termId == tid
    ensures Lookup(list, tid) ==
      if idx < |list| && list[idx].termId == tid then list[idx].cList else []
  {
    if idx < |list| && list[idx].termId == tid {
      LookupFirst(list, tid, idx);
    } else {
      assert forall k :: 0 <= k < |list| ==> list[k].termId != tid by {
        forall k | 0 <= k < |list|
          ensures list[k].termId != tid
        {
          if idx <= k {
            assert list[idx].termId <= list[k].termId;
          }
        }
      }
      LookupMissing(list, tid);
    }
  }

  // ---------------------------------------------------------------------------
  // Where a match comes from.

  lemma {:induction false} HitsPositive(list: Bucket, terms: seq<int>, c: nat)
    requires Hits(list, terms, c) > 0
    ensures exists t :: t in terms && c in Ids(Lookup(list, t))
  {
    var front := terms[..|terms| - 1];
    var last := terms[|terms| - 1];
    if Hits(list, front, c) > 0 {
      HitsPositive(list, front, c);
      var t :| t in front && c in Ids(Lookup(list, t));
      assert t in terms;
    } else {
      assert c in Ids(Lookup(list, last));
    }
  }

  /** A conjunction with a hit in a bucket is stored in that bucket. */
  lemma HitIsStored(list: Bucket, t: int, c: nat)
    requires c in Ids(Lookup(list, t))
    ensures c in BucketIds(list)
  {
    LookupIsEntry(list, t);
    var e :| e in list && e.termId == t && e.cList == Lookup(list, t);
    var p :| p in e.cList && p.conjId == c;
  }

  /**
   * Exact-AND counting: from a bucket of size at least 1, a conjunction is
   * matched iff the query terms give it at least `size` hits.
   */
  lemma BucketMatchIffHits(list: Bucket, size: nat, terms: seq<int>, c: nat)
    requires size >= 1
    ensures c in BucketMatch(list, size, terms) <==> Hits(list, terms, c) >= size
  {
    if Hits(list, terms, c) >= size {
      HitsPositive(list, terms, c);
      var t :| t in terms && c in Ids(Lookup(list, t));
      HitIsStored(list, t, c);
    }
  }

  lemma {:induction false} MatchUpToSource(b: seq<Bucket>, terms: seq<int>, k: nat, c: nat)
    requires k <= |b|
    requires c in MatchUpTo(b, terms, k)
    ensures exists i :: 0 <= i < k && c in BucketMatch(b[i], i, terms)
  {
    if c !in BucketMatch(b[k - 1], k - 1, terms) {
      MatchUpToSource(b, terms, k - 1, c);
    }
  }

  /**
   * Nothing is invented: a matched conjunction is listed, in a scanned bucket,
   * under a query term or under bucket 0's wildcard entry.
   */
  lemma MatchedHasSource(b: seq<Bucket>, terms: seq<int>, c: nat)
    requires |b| > 0
    requires c in MatchedConjs(b, terms)
    ensures exists i :: (0 <= i <= Bound(b, terms) &&
      ((exists t :: t in terms && c in Ids(Lookup(b[i], t))) ||
       (i == 0 && |b[0]| > 0 && c in Ids(b[0][0].cList))))
  {
    MatchUpToSource(b, terms, Bound(b, terms) + 1, c);
    var i :| 0 <= i < Bound(b, terms) + 1 && c in BucketMatch(b[i], i, terms);
    if Hits(b[i], terms, c) > 0 {
      HitsPositive(b[i], terms, c);
    }
  }

  /** The only stored ids a search can return are those of the buckets. */
  lemma MatchedAreStored(b: seq<Bucket>, terms: seq<int>, c: nat)
    requires |b| > 0
    requires c in MatchedConjs(b, terms)
    ensures exists i :: 0 <= i < |b| && c in BucketIds(b[i])
  {
    MatchUpToSource(b, terms, Bound(b, terms) + 1, c);
  }

  // ---------------------------------------------------------------------------
  // The wildcard, extra terms and the buckets that are never read.

  lemma SubsetBothWays<T>(a: set<T>, s: set<T>)
    requires a <= s && s <= a
    ensures a == s
  {
  }

  lemma SubsetOfUnion<T>(a: set<T>, s: set<T>, t: set<T>)
    requires a <= s
    ensures a <= s + t
  {
  }

  lemma MatchUpToGrowsWithK(b: seq<Bucket>, terms: seq<int>, k1: nat, k2: nat)
    requires k1 <= k2 <= |b|
    ensures MatchUpTo(b, terms, k1) <= MatchUpTo(b, terms, k2)
  {
    forall c | c in MatchUpTo(b, terms, k1)
      ensures c in MatchUpTo(b, terms, k2)
    {
      MatchUpToSource(b, terms, k1, c);
      var i :| 0 <= i < k1 && c in BucketMatch(b[i], i, terms);
      BucketInMatchUpTo(b, terms, i, k2);
    }
  }

  /** The conjunctions of bucket 0's first entry match every query. */
  lemma WildcardAlwaysMatches(b: seq<Bucket>, terms: seq<int>)
    requires |b| > 0 && |b[0]| > 0
    ensures Ids(b[0][0].cList) <= MatchedConjs(b, terms)
  {
    BucketInMatchUpTo(b, terms, 0, Bound(b, terms) + 1);
    forall c | c in Ids(b[0][0].cList)
      ensures c in BucketMatch(b[0], 0, terms)
    {
      var p :| p in b[0][0].cList && p.conjId == c;
      assert b[0][0] in b[0];
      assert Occ(b[0][0].cList, c) > 0;
    }
  }

  lemma {:induction false} HitsAppend(list: Bucket, t1: seq<int>, t2: seq<int>, c: nat)
    ensures Hits(list, t1 + t2, c) == Hits(list, t1, c) + Hits(list, t2, c)
  {
    if t2 == [] {
      assert t1 + t2 == t1;
    } else {
      var front := t2[..|t2| - 1];
      assert (t1 + t2)[..|t1 + t2| - 1] == t1 + front;
      HitsAppend(list, t1, front, c);
    }
  }

  lemma BucketMatchGrowsWithTerms(list: Bucket, size: nat, terms: seq<int>, extra: seq<int>)
    ensures BucketMatch(list, size, terms) <= BucketMatch(list, size, terms + extra)
  {
    forall c
      ensures Hits(list, terms + extra, c) == Hits(list, terms, c) + Hits(list, extra, c)
    {
      HitsAppend(list, terms, extra, c);
    }
  }

  /** Extra query terms never prevent a match. */
  lemma ExtraTermsKeepMatches(b: seq<Bucket>, terms: seq<int>, extra: seq<int>)
    requires |b| > 0
    ensures MatchedConjs(b, terms) <= MatchedConjs(b, terms + extra)
  {
    forall c | c in MatchedConjs(b, terms)
      ensures c in MatchedConjs(b, terms + extra)
    {
      MatchUpToSource(b, terms, Bound(b, terms) + 1, c);
      var i :| 0 <= i < Bound(b, terms) + 1 && c in BucketMatch(b[i], i, terms);
      BucketMatchGrowsWithTerms(b[i], i, terms, extra);
      BucketInMatchUpTo(b, terms + extra, i, Bound(b, terms + extra) + 1);
    }
  }

  /** What `MatchUpTo` over `b1` yields, it yields over any `b2` that agrees on the buckets read. */
  lemma MatchUpToReadsPrefix(b1: seq<Bucket>, b2: seq<Bucket>, terms: seq<int>, k: nat)
    requires k <= |b1| && k <= |b2|
    requires forall i :: 0 <= i < k ==> b1[i] == b2[i]
    ensures MatchUpTo(b1, terms, k) <= MatchUpTo(b2, terms, k)
  {
    forall c | c in MatchUpTo(b1, terms, k)
      ensures c in MatchUpTo(b2, terms, k)
    {
      MatchUpToSource(b1, terms, k, c);
      var i :| 0 <= i < k && c in BucketMatch(b1[i], i, terms);
      assert b1[i] == b2[i];
      BucketInMatchUpTo(b2, terms, i, k);
    }
  }

  /**
   * Buckets past `Bound` are never read: two indices with the same number of
   * buckets that agree on buckets `0 .. Bound` match the same conjunctions.
   */
  lemma BucketsPastBoundUnread(b1: seq<Bucket>, b2: seq<Bucket>, terms: seq<int>)
    requires |b1| == |b2| > 0
    requires forall i :: 0 <= i <= Bound(b1, terms) ==> b1[i] == b2[i]
    ensures MatchedConjs(b1, terms) == MatchedConjs(b2, terms)
  {
    var k := Bound(b1, terms) + 1;
    assert Bound(b2, terms) + 1 == k;
    MatchUpToReadsPrefix(b1, b2, terms, k);
    MatchUpToReadsPrefix(b2, b1, terms, k);
    SubsetBothWays(MatchUpTo(b1, terms, k), MatchUpTo(b2, terms, k));
  }

  // ---------------------------------------------------------------------------
  // Pruning loses nothing, on an index whose lists name a conjunction once.

  predicate DistinctIds(ps: seq<Pair>) {
    forall j, k :: 0 <= j < k < |ps| ==> ps[j].conjId != ps[k].conjId
  }

  /** No membership list of the bucket names a conjunction twice. */
  predicate NoRepeatedConj(list: Bucket) {
    forall e :: e in list ==> DistinctIds(e.cList)
  }

  lemma {:induction false} OccAtMostOne(ps: seq<Pair>, c: nat)
    requires DistinctIds(ps)
    ensures Occ(ps, c) <= 1
  {
    if ps != [] {
      var front := ps[..|ps| - 1];
      OccAtMostOne(front, c);
      if ps[|ps| - 1].conjId == c {
        forall j | 0 <= j < |front|
          ensures front[j].conjId != c
        {
          assert front[j] == ps[j];
        }
        assert c !in Ids(front);
      }
    }
  }

  lemma OccLookupAtMostOne(list: Bucket, t: int, c: nat)
    requires NoRepeatedConj(list)
    ensures Occ(Lookup(list, t), c) <= 1
  {
    LookupIsEntry(list, t);
    if Lookup(list, t) != [] {
      OccAtMostOne(Lookup(list, t), c);
    }
  }

  lemma {:induction false} HitsAtMostTerms(list: Bucket, terms: seq<int>, c: nat)
    requires NoRepeatedConj(list)
    ensures Hits(list, terms, c) <= |terms|
  {
    if terms != [] {
      HitsAtMostTerms(list, terms[..|terms| - 1], c);
      OccLookupAtMostOne(list, terms[|terms| - 1], c);
    }
  }

  /** A bucket of more terms than the query has can match nothing. */
  lemma PrunedBucketMatchesNothing(list: Bucket, size: nat, terms: seq<int>)
    requires NoRepeatedConj(list)
    requires size > |terms|
    ensures BucketMatch(list, size, terms) == {}
  {
    forall c | c in BucketIds(list)
      ensures Total(list, size, terms, c) < size
    {
      HitsAtMostTerms(list, terms, c);
    }
  }

  /** A conjunction matched in bucket `size` of such an index has `size` at most the query length. */
  lemma MatchedBucketWithinTerms(list: Bucket, size: nat, terms: seq<int>, c: nat)
    requires NoRepeatedConj(list)
    requires c in BucketMatch(list, size, terms)
    ensures size <= |terms|
  {
    if size > 0 {
      HitsAtMostTerms(list, terms, c);
    }
  }

  lemma {:induction false} BucketInMatchUpTo(b: seq<Bucket>, terms: seq<int>, i: nat, k: nat)
    requires i < k <= |b|
    ensures BucketMatch(b[i], i, terms) <= MatchUpTo(b, terms, k)
  {
    if i < k - 1 {
      BucketInMatchUpTo(b, terms, i, k - 1);
      SubsetOfUnion(BucketMatch(b[i], i, terms), MatchUpTo(b, terms, k - 1), BucketMatch(b[k - 1], k - 1, terms));
    }
  }

  /** Skipping the buckets past `Bound` loses no match: scanning them all gives the same set. */
  lemma PruningLosesNothing(b: seq<Bucket>, terms: seq<int>)
    requires |b| > 0
    requires forall i :: 0 <= i < |b| ==> NoRepeatedConj(b[i])
    ensures MatchedConjs(b, terms) == MatchUpTo(b, terms, |b|)
  {
    MatchUpToGrowsWithK(b, terms, Bound(b, terms) + 1, |b|);
    forall c | c in MatchUpTo(b, terms, |b|)
      ensures c in MatchedConjs(b, terms)
    {
      MatchUpToSource(b, terms, |b|, c);
      var i :| 0 <= i < |b| && c in BucketMatch(b[i], i, terms);
      MatchedBucketWithinTerms(b[i], i, terms, c);
      BucketInMatchUpTo(b, terms, i, Bound(b, terms) + 1);
    }
  }

  // ---------------------------------------------------------------------------
  // Exact AND: on a well-formed bucket and a query without repeated term ids,
  // a conjunction matches iff every one of its terms is in the query.

  predicate StrictlySorted(list: Bucket) {
    forall j, k :: 0 <= j < k < |list| ==> list[j].termId < list[k].termId
  }

  /** The term ids under which conjunction `c` is listed in a bucket. */
  function ConjTerms(list: Bucket, c: nat): set<int> {
    set e | e in list && c in Ids(e.cList) :: e.termId
  }

  function TermSet(terms: seq<int>): set<int> {
    set t | t in terms
  }

  /**
   * A bucket of conjunctions of `size` terms as the writer builds it: one
   * entry per term id, no repeats in a list, and each stored conjunction
   * listed under exactly `size` term ids.
   */
  predicate WellFormedBucket(list: Bucket, size: nat) {
    && StrictlySorted(list)
    && NoRepeatedConj(list)
    && forall c :: c in BucketIds(list) ==> |ConjTerms(list, c)| == size
  }

  lemma OccLookupIsPresence(list: Bucket, t: int, c: nat)
    requires StrictlySorted(list) && NoRepeatedConj(list)
    ensures Occ(Lookup(list, t), c) == if t in ConjTerms(list, c) then 1 else 0
  {
    if exists k :: 0 <= k < |list| && list[k].termId == t {
      var k :| 0 <= k < |list| && list[k].termId == t;
      LookupFirst(list, t, k);
      OccAtMostOne(list[k].cList, c);
      if t in ConjTerms(list, c) {
        var e :| e in list && c in Ids(e.cList) && e.termId == t;
        var j :| 0 <= j < |list| && list[j] == e;
        assert j == k;
      } else {
        assert list[k] in list;
      }
    } else {
      LookupMissing(list, t);
    }
  }

  lemma TermSetSnoc(terms: seq<int>)
    requires terms != []
    ensures TermSet(terms) == TermSet(terms[..|terms| - 1]) + {terms[|terms| - 1]}
  {
    assert terms == terms[..|terms| - 1] + [terms[|terms| - 1]];
  }

  lemma DistinctFront(terms: seq<int>)
    requires Distinct(terms) && terms != []
    ensures Distinct(terms[..|terms| - 1])
    ensures terms[|terms| - 1] !in TermSet(terms[..|terms| - 1])
  {
    var front := terms[..|terms| - 1];
    forall j | 0 <= j < |front|
      ensures front[j] != terms[|terms| - 1]
    {
      assert front[j] == terms[j];
    }
  }

  lemma CardInterAddFresh(ct: set<int>, s: set<int>, x: int)
    requires x !in s
    ensures |ct * (s + {x})| == |ct * s| + (if x in ct then 1 else 0)
  {
    if x in ct {
      assert ct * (s + {x}) == (ct * s) + {x};
    } else {
      assert ct * (s + {x}) == ct * s;
    }
  }

  lemma {:induction false} HitsCountPresentTerms(list: Bucket, terms: seq<int>, c: nat)
    requires StrictlySorted(list) && NoRepeatedConj(list)
    requires Distinct(terms)
    ensures Hits(list, terms, c) == |ConjTerms(list, c) * TermSet(terms)|
  {
    if terms != [] {
      var front := terms[..|terms| - 1];
      var last := terms[|terms| - 1];
      DistinctFront(terms);
      HitsCountPresentTerms(list, front, c);
      OccLookupIsPresence(list, last, c);
      TermSetSnoc(terms);
      CardInterAddFresh(ConjTerms(list, c), TermSet(front), last);
    }
  }

  lemma {:induction false} SubsetCard<T>(a: set<T>, s: set<T>)
    requires a <= s
    ensures |a| <= |s|
  {
    if a != {} {
      var y :| y in a;
      SubsetCard(a - {y}, s - {y});
    }
  }

  /** A subset at least as large as its superset is the whole superset. */
  lemma SubsetOfFullSize<T>(a: set<T>, s: set<T>)
    requires a <= s && |a| >= |s|
    ensures a == s
  {
    if a != s {
      var x :| x in s && x !in a;
      SubsetCard(a, s - {x});
    }
  }

  /**
   * In a well-formed bucket of size at least 1, a stored conjunction is
   * matched by a query without repeated ids iff all its terms are in the query.
   */
  lemma BucketExactAnd(list: Bucket, size: nat, terms: seq<int>, c: nat)
    requires size >= 1 && WellFormedBucket(list, size)
    requires Distinct(terms)
    requires c in BucketIds(list)
    ensures c in BucketMatch(list, size, terms) <==> ConjTerms(list, c) <= TermSet(terms)
  {
    var ct := ConjTerms(list, c);
    BucketMatchIffHits(list, size, terms, c);
    HitsCountPresentTerms(list, terms, c);
    if Hits(list, terms, c) >= size {
      SubsetOfFullSize(ct * TermSet(terms), ct);
    }
    if ct <= TermSet(terms) {
      assert ct * TermSet(terms) == ct;
    }
  }

  /**
   * The whole matcher on a query without repeated ids: a conjunction stored
   * only in well-formed bucket `k >= 1` is returned iff all its `k` terms are
   * in the query, the pruning to `Bound` notwithstanding.
   */
  lemma ConjMatchesIffAllTermsPresent(b: seq<Bucket>, terms: seq<int>, k: nat, c: nat)
    requires 1 <= k < |b|
    requires WellFormedBucket(b[k], k)
    requires forall i :: 0 <= i < |b| ==> NoRepeatedConj(b[i])
    requires Distinct(terms)
    requires c in BucketIds(b[k])
    requires forall i :: 0 <= i < |b| && i != k ==> c !in BucketIds(b[i])
    ensures c in MatchedConjs(b, terms) <==> ConjTerms(b[k], c) <= TermSet(terms)
  {
    BucketExactAnd(b[k], k, terms, c);
    if c in MatchedConjs(b, terms) {
      MatchUpToSource(b, terms, Bound(b, terms) + 1, c);
      var i :| 0 <= i < Bound(b, terms) + 1 && c in BucketMatch(b[i], i, terms);
      assert c in BucketIds(b[i]);
    }
    if ConjTerms(b[k], c) <= TermSet(terms) {
      MatchedBucketWithinTerms(b[k], k, terms, c);
      BucketInMatchUpTo(b, terms, k, Bound(b, terms) + 1);
    }
  }
}
