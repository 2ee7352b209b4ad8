/**
 * The read-only index snapshot that a search runs against, and the invariants
 * that the index writer (outside this model) maintains for it.
 */
module DnfIndex {

  datatype Option<T> = None | Some(value: T)

  datatype Result<T, E> = Success(value: T) | Failure(error: E)

  /** One attribute condition of a query. */
  datatype Cond = Cond(key: string, val: string)

  /** A membership entry: conjunction `conjId` contains the term, counted when `belong` holds. */
  datatype Pair = Pair(conjId: nat, belong: bool)

  /** One entry of a size bucket: a term id and the conjunctions of that size containing it. */
  datatype TermEntry = TermEntry(termId: int, cList: seq<Pair>)

  /** The entries of one conjunction size, meant to be ordered by `termId`. */
  type Bucket = seq<TermEntry>

  /**
   * The search handler's indices: the term dictionary (keyed by `Key + "%" + Val`),
   * the conjunction-size buckets, and the document list of each conjunction.
   */
  datatype Handler = Handler(
    termMap: map<string, int>,
    conjSzRvs: seq<Bucket>,
    conjRvs: seq<seq<nat>>)

  /** What a document's temporal-validity predicate reports today: a verdict and maybe an error. */
  datatype Coverage = Coverage(ok: bool, err: Option<string>)

  /** The error values `Search` returns, in the order it checks them. */
  datatype SearchError =
    | EmptyQuery                // no condition was given
    | DuplicateKey(key: string) // `key` is the key of two conditions
    | NoKnownTerms              // no condition is in the term dictionary

  predicate Distinct<T(==)>(s: seq<T>) {
    forall i, j :: 0 <= i < j < |s| ==> s[i] != s[j]
  }

  /** The conjunction ids a list of pairs mentions. */
  function Ids(ps: seq<Pair>): set<nat> {
    set p | p in ps :: p.conjId
  }

  /** Every conjunction id that occurs anywhere in a bucket. */
  function BucketIds(list: Bucket): set<nat> {
    set e, p | e in list && p in e.cList :: p.conjId
  }

  /** The order `sort.Search` relies on: ascending by term id. */
  predicate SortedByTerm(list: Bucket) {
    forall j, k :: 0 <= j < k < |list| ==> list[j].termId <= list[k].termId
  }

  predicate SortedBuckets(b: seq<Bucket>) {
    forall i :: 0 <= i < |b| ==> SortedByTerm(b[i])
  }

  /** Every membership pair in the index carries `belong == true`. */
  predicate AllBelong(b: seq<Bucket>) {
    forall i, e, p :: 0 <= i < |b| && e in b[i] && p in e.cList ==> p.belong
  }

  /** Every conjunction id stored in a bucket has a slot in `conjRvs`. */
  predicate ConjsInRange(h: Handler) {
    forall i, c :: 0 <= i < |h.conjSzRvs| && c in BucketIds(h.conjSzRvs[i]) ==> c < |h.conjRvs|
  }

  /** The invariants the index writer keeps for a snapshot that `Search` may read. */
  predicate ValidIndex(h: Handler) {
    && |h.conjSzRvs| > 0
    && SortedBuckets(h.conjSzRvs)
    && AllBelong(h.conjSzRvs)
    && ConjsInRange(h)
  }

  /**
   * `ToSlice` of the integer-set package: the elements of a set, each once,
   * in an order the model leaves open.
   */
  method ToSlice(s: set<nat>) returns (r: seq<nat>)
    ensures Distinct(r)
    ensures forall x :: x in r <==> x in s
  {
    r := [];
    var rest := s;
    while rest != {}
      invariant rest <= s
      invariant Distinct(r)
      invariant forall x :: x in r <==> x in s && x !in rest
      decreases rest
    {
      var x :| x in rest;
      r := r + [x];
      rest := rest - {x};
    }
  }
}
