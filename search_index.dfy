/**
 * `loadSearchIndex`: a one-slot lazy cache (`window.searchIndex`) in front of
 * the fetch of the static index. The fetch and the JSON parse are replaced by
 * their outcome, supplied by the caller.
 */
module SearchIndex {
  import opened Wrappers
  import opened Search

  /** What `fetch` followed by `response.json()` would produce if it were issued. */
  datatype FetchOutcome = Fetched(posts: seq<Post>) | Failed

  /** The value returned, the cache afterwards, and whether a fetch was issued. */
  datatype LoadResult = LoadResult(returned: seq<Post>, cache: Option<seq<Post>>, fetched: bool)

  /** One call of `loadSearchIndex` from cache state `cache`. */
  function LoadStep(cache: Option<seq<Post>>, outcome: FetchOutcome): (r: LoadResult)
    // a cached index is returned as it is, without a fetch
    ensures cache.Some? ==> !r.fetched && r.returned == cache.value && r.cache == cache
    // otherwise exactly one fetch is issued
    ensures cache.None? ==> r.fetched
    // a successful fetch is stored and returned
    ensures cache.None? && outcome.Fetched? ==> r.returned == outcome.posts && r.cache == Some(outcome.posts)
    // a failure (non-ok response or parse error) fails open and leaves the cache unset
    ensures cache.None? && outcome.Failed? ==> r.returned == [] && r.cache == None
  {
    if cache.Some? then LoadResult(cache.value, cache, false)
    else match outcome
      case Fetched(posts) => LoadResult(posts, Some(posts), true)
      case Failed => LoadResult([], None, true)
  }

  /** The cache after a sequence of calls, the first of them made from `cache`. */
  function CacheAfter(cache: Option<seq<Post>>, outcomes: seq<FetchOutcome>): Option<seq<Post>>
    decreases |outcomes|
  {
    if outcomes == [] then cache else CacheAfter(LoadStep(cache, outcomes[0]).cache, outcomes[1..])
  }

  /** How many fetches a sequence of calls issues. */
  function FetchCount(cache: Option<seq<Post>>, outcomes: seq<FetchOutcome>): nat
    decreases |outcomes|
  {
    if outcomes == [] then 0
    else
      var r := LoadStep(cache, outcomes[0]);
      (if r.fetched then 1 else 0) + FetchCount(r.cache, outcomes[1..])
  }

  /** How many failed fetches come before the first successful one. */
  function LeadingFailures(outcomes: seq<FetchOutcome>): (k: nat)
    ensures k <= |outcomes|
    ensures forall i :: 0 <= i < k ==> outcomes[i].Failed?
    ensures k < |outcomes| ==> outcomes[k].Fetched?
  {
    if outcomes == [] || outcomes[0].Fetched? then 0 else 1 + LeadingFailures(outcomes[1..])
  }

  /** Once the cache is set, no later call fetches and the cache stays as it is. */
  lemma {:induction false} CachedNeverFetches(cache: Option<seq<Post>>, outcomes: seq<FetchOutcome>)
    requires cache.Some?
    ensures FetchCount(cache, outcomes) == 0 && CacheAfter(cache, outcomes) == cache
    decreases |outcomes|
  {
    if outcomes != [] {
      CachedNeverFetches(cache, outcomes[1..]);
    }
  }

  /**
   * From an unset cache, calls keep fetching while the fetch fails and stop after
   * the first success, whose posts then stay cached.
   */
  lemma {:induction false} FetchesUntilFirstSuccess(outcomes: seq<FetchOutcome>)
    ensures var k := LeadingFailures(outcomes);
      if k == |outcomes| then FetchCount(None, outcomes) == k && CacheAfter(None, outcomes) == None
      else FetchCount(None, outcomes) == k + 1 && CacheAfter(None, outcomes) == Some(outcomes[k].posts)
    decreases |outcomes|
  {
    if outcomes != [] {
      match outcomes[0]
      case Fetched(posts) =>
        CachedNeverFetches(Some(posts), outcomes[1..]);
      case Failed =>
        FetchesUntilFirstSuccess(outcomes[1..]);
    }
  }

  /** Two calls issue at most one fetch, unless the first call's fetch failed. */
  lemma LoadTwiceFetchesOnce(cache: Option<seq<Post>>, first: FetchOutcome, second: FetchOutcome)
    requires cache.Some? || first.Fetched?
    ensures FetchCount(cache, [first, second]) <= 1
    ensures LoadStep(LoadStep(cache, first).cache, second).returned == LoadStep(cache, first).returned
  {
    var r1 := LoadStep(cache, first);
    var r2 := LoadStep(r1.cache, second);
    assert [first, second][1..] == [second];
    assert [second][1..] == [];
    assert FetchCount(r1.cache, [second]) == (if r2.fetched then 1 else 0) + FetchCount(r2.cache, []);
  }

  /** After a failed fetch the next call fetches again. */
  lemma FailedLoadRetries(first: FetchOutcome, second: FetchOutcome)
    requires first.Failed?
    ensures FetchCount(None, [first, second]) == 2
  {
    var r1 := LoadStep(None, first);
    var r2 := LoadStep(r1.cache, second);
    assert [first, second][1..] == [second];
    assert [second][1..] == [];
    assert FetchCount(r1.cache, [second]) == (if r2.fetched then 1 else 0) + FetchCount(r2.cache, []);
  }

  /** `window.searchIndex` and the number of fetches it has caused. */
  class SearchIndexCache {
    var searchIndex: Option<seq<Post>>
    ghost var fetches: nat

    constructor ()
      ensures searchIndex == None && fetches == 0
    {
      searchIndex := None;
      fetches := 0;
    }

    /** `loadSearchIndex()`, with `outcome` standing for the awaited fetch and parse. */
    method Load(outcome: FetchOutcome) returns (posts: seq<Post>)
      modifies this
      ensures var r := LoadStep(old(searchIndex), outcome);
        posts == r.returned && searchIndex == r.cache &&
        fetches == old(fetches) + (if r.fetched then 1 else 0)
    {
      if searchIndex.Some? {
        return searchIndex.value;
      }
      fetches := fetches + 1;
      match outcome {
        case Fetched(parsed) =>
          searchIndex := Some(parsed);
          posts := parsed;
        case Failed =>
          posts := [];
      }
    }
  }
}
