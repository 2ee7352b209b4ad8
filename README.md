# DNF search core, modelled in Dafny

This project models the query path of a DNF (disjunctive normal form)
boolean-expression index. A document is indexed under a set of
conjunctions, and each conjunction is a set of `key=value` terms. A query
is a list of conditions, and the search returns the documents that have at
least one conjunction whose terms are all present in the query and that are
in effect today.

The search runs against a read-only index snapshot, `DnfIndex.Handler`. It
has three parts:

- the term dictionary `termMap`, keyed by `Key + "%" + Val`;
- the size buckets `conjSzRvs`. Bucket `i` lists, for each term id in
  ascending order, the conjunctions of `i` terms that contain it. Bucket 0
  holds the wildcard conjunctions under its first entry;
- the document lists `conjRvs` of the conjunctions.

The pipeline is made of imperative methods with loop invariants. Each
method is proved against a specification function:

| operation | method | specification |
|---|---|---|
| condition check | `Query.SearchCondCheck` | `DistinctKeys`, `IsFirstDuplicate` |
| translation to term ids | the loop in `DnfSearch.Search` | `Query.FoundIds` |
| conjunction matcher | `ConjMatch.GetConjs`, which uses `SortSearch`, `CountTerms`, `CountBucket`, `ScanBucket` and `AddPairs` | `ConjMatch.MatchedConjs`, built from `MatchUpTo`, `BucketMatch` and `Hits` |
| document resolver | `DocResolve.GetDocs` | `DocResolve.ResolvedDocs` |
| whole search | `DnfSearch.DoSearch`, `DnfSearch.Search` | `DnfSearch.SearchDocs` |

The counting set of the matcher is a local `map<nat, nat>` from conjunction
id to hit count. Its survivors are the keys whose count is positive and at
least the bucket's threshold (`set c | c in countSet && countSet[c] >= i`).

Lemmas about the specification functions state the following:

- the exact-AND meaning of the counting;
- where each result comes from;
- that the wildcard always matches;
- monotonicity in the query;
- that the buckets past the bound are never read;
- that pruning at the bound loses nothing;
- membership of the resolved documents.

`Scenarios` works two concrete indices through the whole search. One is a
two-term conjunction next to a wildcard conjunction. The other is the term
collision described under "Findings".

## Model

| member | source | states |
|---|---|---|
| `Query.SearchCondCheck` | src/dnf/dnfSearch.go:18-30 | An empty list gives the empty-query error. No error is returned exactly when the list is non-empty and its keys are pairwise distinct. Otherwise the error names the key at the first position whose key already occurred earlier. |
| `Query.FirstDuplicateExists` | src/dnf/dnfSearch.go:23-28 | A list with a repeated key has a first position at which the seen-keys scan meets a key again. |
| `Query.FirstDuplicateUnique` | src/dnf/dnfSearch.go:23-26 | That first repeated position is unique, so the reported key is determined by the list. |
| `Query.FoundIdsMembers` | src/dnf/dnfSearch.go:36-43 | An id is passed on iff some condition's `Key%Val` maps to it in the dictionary. The list passed on is empty iff no condition's key is in the dictionary. |
| `Query.FoundIdsAppend` | src/dnf/dnfSearch.go:37-41 | Translation keeps condition order: the ids of `c1 + c2` are the ids of `c1` followed by those of `c2`. |
| `Query.FoundDistinctIdsSpec` | src/dnf/dnfSearch.go:36-43 | The corrected translation has no repeated id, passes on the same ids as the translation as written, and is empty under the same condition. |
| `DnfSearch.Search` | src/dnf/dnfSearch.go:32-46 | There are three errors with their conditions: empty list, first duplicate key, no known term. It succeeds iff the list is non-empty, has distinct keys and has a condition in the dictionary. On success it returns, without duplicates, exactly the search documents of the ids found, in condition order. |
| `DnfSearch.SearchDistinct` | src/dnf/dnfSearch.go:32-46 | The same contract as `Search`, with the corrected translation that passes each term id once (see Findings). |
| `DnfSearch.SearchDistinctExactAnd` | src/dnf/dnfSearch.go:32-46 | With the corrected translation, a conjunction stored only in well-formed bucket `k >= 1` is returned iff each of its terms is the dictionary id of some query condition. |
| `DnfSearch.DoSearch` | src/dnf/dnfSearch.go:48-54 | Returns each document once: exactly the valid documents of the matched conjunctions. When nothing matches it returns an empty result. |
| `DnfSearch.SearchDocs` | src/dnf/dnfSearch.go:48-88 | Every document a search yields is reported valid by its predicate. |
| `ConjMatch.GetConjs` | src/dnf/dnfSearch.go:90-135 | Returns each conjunction id once: exactly `MatchedConjs`, the union of the bucket matches over buckets `0 .. min(len(terms), len(conjSzRvs) - 1)`. |
| `ConjMatch.Bound` | src/dnf/dnfSearch.go:94-98 | The last bucket scanned is below the number of buckets and at most the query length, and it equals one of the two. |
| `ConjMatch.ScanBucket` | src/dnf/dnfSearch.go:103-131 | One iteration of the bucket loop yields exactly that bucket's match. An empty bucket yields nothing. |
| `ConjMatch.CountBucket` | src/dnf/dnfSearch.go:108-129 | After a bucket's pass, every count is the query terms' hits plus, for bucket 0, the wildcard entry's pairs. Every counted key is positive and stored in the bucket. |
| `ConjMatch.CountTerms` | src/dnf/dnfSearch.go:110-121 | After the term loop, the count of each conjunction is its number of hits over the query terms (`Hits`). |
| `ConjMatch.AddPairs` | src/dnf/dnfSearch.go:117-119 | Adding a membership list raises each conjunction's count by its number of occurrences in the list. Every key stays positive and within the given ids. |
| `ConjMatch.Add` | src/dnf/dnfSearch.go:118 | One counting-set insertion adds the conjunction to the keys. |
| `ConjMatch.SortSearch` | src/dnf/dnfSearch.go:111-113 | On a bucket sorted by term id, returns the least index whose term id is at least `tid` (`len` if none). |
| `ConjMatch.SearchedEntryIsLookup` | src/dnf/dnfSearch.go:111-115 | The searched index holds `tid` exactly when some entry does, and the list used is the first entry for `tid`, or nothing. |
| `ConjMatch.LookupIsEntry` | src/dnf/dnfSearch.go:114-117 | What the lookup yields is empty or the membership list of an entry for that term. |
| `ConjMatch.SurvivorsMatch` | src/dnf/dnfSearch.go:131 | Draining the counting set with threshold `size` yields the bucket match. |
| `ConjMatch.BelongInBucket` | src/dnf/dnfSearch.go:124-127 | On an index whose pairs all belong, every pair of bucket 0's wildcard entry carries `belong == true`. |
| `ConjMatch.BucketMatchIffHits` | src/dnf/dnfSearch.go:108-121 | In a bucket of size at least 1, a conjunction survives iff the query terms give it at least `size` hits. |
| `ConjMatch.HitsPositive` | src/dnf/dnfSearch.go:110-119 | A conjunction with a hit is listed under the entry of some query term. |
| `ConjMatch.HitIsStored` | src/dnf/dnfSearch.go:114-119 | A conjunction hit through a term is stored in that bucket. |
| `ConjMatch.MatchUpToSource` | src/dnf/dnfSearch.go:102-131 | A conjunction in the union over the first `k` buckets is matched by one of them. |
| `ConjMatch.MatchedHasSource` | src/dnf/dnfSearch.go:117-131 | Nothing is invented. A matched conjunction is listed, in a scanned bucket, under a query term or under bucket 0's wildcard entry. |
| `ConjMatch.MatchedAreStored` | src/dnf/dnfSearch.go:117-131 | A matched conjunction is stored in some bucket of the index. |
| `ConjMatch.BucketInMatchUpTo` | src/dnf/dnfSearch.go:102-131 | The match of every scanned bucket is part of the union. |
| `ConjMatch.MatchUpToGrowsWithK` | src/dnf/dnfSearch.go:102-131 | Scanning more buckets never loses a match. |
| `ConjMatch.WildcardAlwaysMatches` | src/dnf/dnfSearch.go:123-129 | Every conjunction of bucket 0's first entry is matched by every query. |
| `ConjMatch.HitsAppend` | src/dnf/dnfSearch.go:110-121 | The hits of a concatenated query are the sum of the hits of its parts. |
| `ConjMatch.BucketMatchGrowsWithTerms` | src/dnf/dnfSearch.go:108-121 | Extra query terms never remove a conjunction from a bucket's match. |
| `ConjMatch.ExtraTermsKeepMatches` | src/dnf/dnfSearch.go:94-131 | Extra query terms never prevent a match, the larger bound included. |
| `ConjMatch.MatchUpToReadsPrefix` | src/dnf/dnfSearch.go:102-103 | The union over the first `k` buckets depends only on those buckets. |
| `ConjMatch.BucketsPastBoundUnread` | src/dnf/dnfSearch.go:94-103 | Two indices with as many buckets that agree on buckets `0 .. Bound` match the same conjunctions. The buckets past the bound are never read. |
| `ConjMatch.OccAtMostOne` | src/dnf/dnfSearch.go:117-119 | A membership list without repeats counts a conjunction at most once. |
| `ConjMatch.OccLookupAtMostOne` | src/dnf/dnfSearch.go:114-119 | With such lists, one query term gives a conjunction at most one hit. |
| `ConjMatch.HitsAtMostTerms` | src/dnf/dnfSearch.go:110-121 | With such lists, a conjunction gets at most as many hits as there are query terms. |
| `ConjMatch.PrunedBucketMatchesNothing` | src/dnf/dnfSearch.go:96-98 | A bucket of more terms than the query has can match nothing. |
| `ConjMatch.MatchedBucketWithinTerms` | src/dnf/dnfSearch.go:96-98 | A conjunction matched in bucket `size` has `size` at most the query length. |
| `ConjMatch.PruningLosesNothing` | src/dnf/dnfSearch.go:94-102 | Clamping the scan at `Bound` gives the same result as scanning every bucket. |
| `ConjMatch.OccLookupIsPresence` | src/dnf/dnfSearch.go:111-119 | In a strictly sorted bucket without repeats, a term gives a conjunction one hit iff the conjunction is listed under that term, and none otherwise. |
| `ConjMatch.HitsCountPresentTerms` | src/dnf/dnfSearch.go:110-121 | For a query without repeated ids, the hits of a conjunction are the number of its terms that are present in the query. |
| `ConjMatch.BucketExactAnd` | src/dnf/dnfSearch.go:108-131 | In a well-formed bucket of size at least 1, a stored conjunction matches a query without repeated ids iff all its terms are in the query. |
| `ConjMatch.ConjMatchesIffAllTermsPresent` | src/dnf/dnfSearch.go:90-135 | For the whole matcher, a conjunction stored only in well-formed bucket `k >= 1` is returned iff all its terms are in the query. |
| `DocResolve.ValidDocsMembers` | src/dnf/dnfSearch.go:70-78 | A document of a list is kept iff it is in the list and its predicate holds. |
| `DocResolve.ResolvedDocsMembers` | src/dnf/dnfSearch.go:64-85 | A document is resolved iff some listed conjunction has it and its predicate reports it valid. |
| `DocResolve.PredicateErrorIgnored` | src/dnf/dnfSearch.go:75-81 | Two predicates with the same verdicts resolve the same documents, whatever errors they report. |
| `DocResolve.GetDocs` | src/dnf/dnfSearch.go:56-88 | Returns each document once: exactly the documents of the listed conjunctions whose predicate holds. A conjunction without documents is skipped. |
| `DnfIndex.ToSlice` | src/dnf/dnfSearch.go:87 | Draining a set yields each of its elements exactly once. |
| `Scenarios.ExampleTranslation` | src/dnf/dnfSearch.go:36-41 | Conditions `A=1`, `B=1` become term ids `[1, 2]`. |
| `Scenarios.ExampleIndexValid` | src/dnf/dnfSearch.go:95 | The example index meets the invariants the search assumes. |
| `Scenarios.PairBucketWellFormed` | src/dnf/dnfSearch.go:103-121 | The size-2 bucket used by both examples is well formed and lists conjunction 1 under terms 1 and 2. |
| `Scenarios.ExampleMatches` | src/dnf/dnfSearch.go:90-135 | Query `[1, 2]` matches conjunctions 0 (wildcard) and 1. Query `[1]` matches only 0. |
| `Scenarios.ExampleDocs` | src/dnf/dnfSearch.go:56-88 | Over the example's document lists, the matches `{0, 1}` resolve to `{100, 200}` and `{0}` to `{200}`. Document 101 is not in effect. |
| `Scenarios.BothTermsMatchBoth` | src/dnf/dnfSearch.go:48-135 | The search for A and B yields documents 100 and 200, and not 101, which is not in effect. |
| `Scenarios.OneTermMatchesWildcardOnly` | src/dnf/dnfSearch.go:48-135 | The search for A alone yields only the wildcard's document 200. |
| `Scenarios.PercentKeysCollide` | src/dnf/dnfSearch.go:38 | `a%b=c` and `a=b%c` have distinct keys, yet both translate to term 1. |
| `Scenarios.CollisionMatches` | src/dnf/dnfSearch.go:108-121 | Term 1 passed twice reaches the threshold 2 of conjunction 1. |
| `Scenarios.RepeatedTermFalseMatch` | src/dnf/dnfSearch.go:38 | As written, conjunction 1 = terms {1, 2} is matched by the colliding conditions although term 2 is not among the ids found. |
| `Scenarios.DistinctTranslationRejects` | src/dnf/dnfSearch.go:38 | With the corrected translation the colliding conditions give `[1]`, and conjunction 1 is not matched. |

## Left out

- Goroutines, the wait group and the read/write locks of `getDocs` and `getConjs` are not modelled. The resolver is a sequential loop over the same (conjunction, document) pairs, which yields the same set.
- Printing a predicate's error to stderr is I/O and is not modelled. The error is a field of `Coverage` that the model never reads, and `DocResolve.PredicateErrorIgnored` states that it plays no role.
- The logic of `CoverToday` and the lookup of a document's attributes are not modelled. Together they are the parameter `cover: nat -> Coverage`.
- The internals of the integer-set and counting-set packages are not modelled. They appear as `set<nat>` and as a `map<nat, nat>` with `Get`/`Add`. Survivors are the keys whose count is positive and at least the threshold, so in bucket 0 every counted key survives.
- `ToSlice` returns the elements in an order the model leaves open. All results are stated as sets, plus freedom from duplicates.
- `ConjMatch.GetConjs`: the meaning of `belong == false` is undefined by this code. The model requires every pair to have `belong == true` (`DnfIndex.AllBelong`), which is stronger than the source, since it asserts this only for the wildcard entry.
- Building and updating `termMap`, `conjSzRvs`, `conjRvs` and the document store happen elsewhere. The model takes them as an immutable snapshot. As preconditions it takes sorted buckets and the property that every stored conjunction has a document list (`DnfIndex.ValidIndex`).
- `DnfSearch.Search`, `DnfSearch.DoSearch`: the source's `ASSERT` at line 65 checks each matched conjunction against `len(conjRvs)` as it is used. The model instead requires this of every stored conjunction (`DnfIndex.ConjsInRange`).
- The `ASSERT`s at lines 95 and 126 become the preconditions `|conjSzRvs| > 0` and `AllBelong`.
- Go's `nil` and empty slices are both the empty sequence. Every place the source tests for `nil` also skips empty slices, or ranges over them without effect.
- Term ids are unbounded integers and conjunction and document ids are naturals. Go's fixed-width `int` never overflows on these paths.

## Findings

| source | as written | input that shows it | evidently intended | confidence | as-written member | corrected member |
|---|---|---|---|---|---|---|
| src/dnf/dnfSearch.go:38 | The dictionary key is `Key + "%" + Val`, so keys or values containing `%` collide. Two conditions with distinct keys can then translate to the same term id, which is counted twice. | `[Cond("a%b", "c"), Cond("a", "b%c")]`: both keys are `"a%b%c"`, giving ids `[1, 1]`. They match the size-2 conjunction {1, 2}, whose term 2 is absent. | Each term id counts at most once per query, so that a bucket-`i` match means all `i` terms are present. | medium, not executed | `Scenarios.RepeatedTermFalseMatch` (with `Scenarios.PercentKeysCollide`), over `DnfSearch.Search` | `DnfSearch.SearchDistinct` with `DnfSearch.SearchDistinctExactAnd` and `Scenarios.DistinctTranslationRejects` |
