/**
 * The body of the debounced input handler of `initializeSearch`: from the final
 * query it shows one of the three regions all-articles, results-container and
 * no-results, and sets the displayed number of results.
 */
module SearchView {
  import opened Wrappers
  import opened Text
  import opened Search
  import opened SearchIndex
  import opened Highlight

  /** ALL, EMPTY, or RESULTS with the displayed count. */
  datatype View = All | Empty | Results(count: nat)

  /** Which of the three regions are visible (not `hidden`). */
  datatype Visibility = Visibility(allArticles: bool, resultsContainer: bool, noResults: bool)

  /** ALL for a blank query; otherwise EMPTY for no results and RESULTS with their number. */
  function SelectView(query: string, results: seq<Post>): (v: View)
    ensures v == All <==> Blank(query)
    ensures v == Empty <==> !Blank(query) && results == []
    ensures v.Results? ==> v.count == |results| && v.count > 0
  {
    if Blank(query) then All else if |results| == 0 then Empty else Results(|results|)
  }

  function VisibleFor(v: View): (r: Visibility)
    ensures (r.allArticles ==> !r.resultsContainer && !r.noResults) &&
            (r.resultsContainer ==> !r.allArticles && !r.noResults) &&
            (r.noResults ==> !r.allArticles && !r.resultsContainer)
    ensures r.allArticles || r.resultsContainer || r.noResults
    ensures r.allArticles <==> v.All?
    ensures r.noResults <==> v.Empty?
  {
    match v
    case All => Visibility(true, false, false)
    case Empty => Visibility(false, false, true)
    case Results(_) => Visibility(false, true, false)
  }

  /**
   * What a settled query does, from cache state `cache`: a blank query shows ALL and
   * loads nothing; any other query loads the index and searches the cache afterwards.
   */
  function Settle(query: string, cache: Option<seq<Post>>, outcome: FetchOutcome): (r: (Option<seq<Post>>, View))
    ensures Blank(query) ==> r == (cache, All)
    ensures !Blank(query) ==> r.0 == LoadStep(cache, outcome).cache && r.1 != All
    ensures cache.Some? ==> r.0 == cache
    ensures !Blank(query) ==> (r.1 == Empty <==> SearchArticles(r.0, query) == [])
    ensures r.1.Results? ==> r.1.count == |SearchArticles(r.0, query)|
  {
    if Blank(query) then (cache, All)
    else
      var loaded := LoadStep(cache, outcome).cache;
      (loaded, SelectView(query, SearchArticles(loaded, query)))
  }

  /** A blank query shows ALL and neither reads nor changes the cache. */
  lemma BlankQueryShowsAll(query: string, cache: Option<seq<Post>>, outcome: FetchOutcome)
    requires Blank(query)
    ensures Settle(query, cache, outcome) == (cache, All)
  {
  }

  /**
   * A query that is not blank shows RESULTS exactly when some post of the index
   * matches, and the count shown is the number of matching posts.
   */
  lemma {:induction false} ResultsCountIsMatchCount(query: string, cache: Option<seq<Post>>, outcome: FetchOutcome)
    requires !Blank(query)
    ensures var (loaded, v) := Settle(query, cache, outcome);
      v != All &&
      (v.Results? <==> loaded.Some? && exists p :: p in loaded.value && Matches(p, SearchTerm(query))) &&
      (v.Results? ==> v.count == CountMatching(loaded.value, SearchTerm(query)))
  {
    SearchTermEmptyIffBlank(query);
    var (loaded, v) := Settle(query, cache, outcome);
    if loaded.Some? {
      FilterCount(loaded.value, SearchTerm(query));
      var r := SearchArticles(loaded, query);
      if r != [] {
        assert r[0] in r;
      }
    }
  }

  /** For a query that is not blank, EMPTY means exactly that no post of the loaded index matches. */
  lemma EmptyMeansNoMatch(query: string, cache: Option<seq<Post>>, outcome: FetchOutcome)
    requires !Blank(query)
    ensures var (loaded, v) := Settle(query, cache, outcome);
      v == Empty <==> (loaded.None? || forall p :: p in loaded.value ==> !Matches(p, SearchTerm(query)))
  {
    ResultsCountIsMatchCount(query, cache, outcome);
  }

  /** When the first load fails, a query that is not blank shows EMPTY and the cache stays unset. */
  lemma FailedLoadShowsEmpty(query: string, outcome: FetchOutcome)
    requires !Blank(query) && outcome.Failed?
    ensures Settle(query, None, outcome) == (None, Empty)
  {
  }

  /** The page regions of the search view and the cache they read. */
  class SearchPage {
    var allArticlesHidden: bool
    var resultsContainerHidden: bool
    var noResultsHidden: bool
    var resultsCount: nat

    constructor ()
      ensures !allArticlesHidden && resultsContainerHidden && noResultsHidden && resultsCount == 0
    {
      allArticlesHidden, resultsContainerHidden, noResultsHidden := false, true, true;
      resultsCount := 0;
    }

    function Shown(): Visibility
      reads this
    {
      Visibility(!allArticlesHidden, !resultsContainerHidden, !noResultsHidden)
    }

    /** The timeout callback, run with the query as it stood when typing paused. */
    method OnQuerySettled(query: string, cache: SearchIndexCache, outcome: FetchOutcome)
      modifies this, cache
      ensures cache.searchIndex == Settle(query, old(cache.searchIndex), outcome).0
      ensures Shown() == VisibleFor(Settle(query, old(cache.searchIndex), outcome).1)
      ensures resultsCount == match Settle(query, old(cache.searchIndex), outcome).1
        case Results(count) => count
        case _ => old(resultsCount)
      ensures cache.fetches == old(cache.fetches) + (if Blank(query) || old(cache.searchIndex).Some? then 0 else 1)
    {
      ghost var settled := Settle(query, cache.searchIndex, outcome);
      if Blank(query) {
        allArticlesHidden := false;
        resultsContainerHidden := true;
        noResultsHidden := true;
        assert settled.1 == All;
        return;
      }
      var _ := cache.Load(outcome);
      assert cache.searchIndex == settled.0;
      var results := SearchArticles(cache.searchIndex, query);
      allArticlesHidden := true;
      if |results| == 0 {
        resultsContainerHidden := true;
        noResultsHidden := false;
        assert settled.1 == Empty;
      } else {
        noResultsHidden := true;
        resultsContainerHidden := false;
        resultsCount := |results|;
        assert settled.1 == Results(|results|);
      }
    }
  }

  /** The title of a result card as rendered: highlighted with the raw, untrimmed query. */
  function CardTitle(post: Post, query: string): (r: string)
    ensures |r| >= |post.title|
    ensures |query| > |post.title| ==> r == post.title
  {
    HighlightNeverShrinks(post.title, query);
    HighlightLongQuery(post.title, query);
    HighlightText(post.title, query)
  }

  /** The title of a result card highlighted with the trimmed query. */
  function CardTitleTrimmed(post: Post, query: string): (r: string)
    ensures |r| >= |post.title|
    ensures Trim(query) == query ==> r == CardTitle(post, query)
  {
    HighlightNeverShrinks(post.title, Trim(query));
    HighlightText(post.title, Trim(query))
  }

  /**
   * A trailing space keeps the search matching on the title but makes the
   * highlight pattern longer than the title, so nothing is marked.
   */
  lemma UntrimmedQueryLosesHighlight()
    ensures var post := Post("Caching", "", "", "", None, "/caching", "2024-01-01");
      SearchArticles(Some([post]), "caching ") == [post] &&
      CardTitle(post, "caching ") == post.title
  {
    var post := Post("Caching", "", "", "", None, "/caching", "2024-01-01");
    var query := "caching ";
    assert SearchTerm(query) == "caching" by {
      PaddedQueryTerm();
    }
    assert Matches(post, SearchTerm(query)) by {
      CachingTitleMatches(post);
    }
    assert |query| > |post.title|;
    FoundButUnmarked(post, query);
  }

  /**
   * A post that matches the trimmed term, under a raw query longer than its title,
   * is found but gets no mark in its title.
   */
  lemma FoundButUnmarked(post: Post, query: string)
    requires SearchTerm(query) != [] && Matches(post, SearchTerm(query)) && |query| > |post.title|
    ensures SearchArticles(Some([post]), query) == [post]
    ensures CardTitle(post, query) == post.title
  {
    var term := SearchTerm(query);
    assert SearchArticles(Some([post]), query) == Filter([post], term);
    FilterSingle(post, term);
  }

  lemma CachingTitleMatches(post: Post)
    requires post.title == "Caching"
    ensures Matches(post, "caching")
  {
    assert Lower("Caching") == "caching";
    assert Contains("caching", "caching");
  }

  /** A lower-case word followed by one white-space character searches for the word. */
  lemma PaddedTerm(w: string, c: char)
    requires w != [] && !IsWhitespace(w[0]) && !IsWhitespace(w[|w| - 1]) && IsWhitespace(c)
    requires forall i :: 0 <= i < |w| ==> !('A' <= w[i] <= 'Z')
    ensures SearchTerm(w + [c]) == w
  {
    assert Trim(w + [c]) == w by {
      TrimTrailing(w, c);
      TrimUnpadded(w);
    }
    assert Lower(w) == w;
    assert SearchTerm(w + [c]) == Lower(Trim(w + [c]));
  }

  lemma PaddedQueryTerm()
    ensures SearchTerm("caching ") == "caching"
  {
    var w := "caching";
    assert w + [' '] == "caching ";
    PaddedTerm(w, ' ');
  }

  /** With the trimmed query, a post found through its title gets a mark in its title. */
  lemma TrimmedQueryHighlightsTitle(post: Post, query: string)
    requires SearchTerm(query) != [] && Contains(Lower(post.title), SearchTerm(query))
    ensures |CardTitleTrimmed(post, query)| > |post.title|
  {
    var t := Trim(query);
    var title := post.title;
    TrimLower(query);
    var i :| OccursAt(Lower(title), Lower(t), i);
    LowerOccurrenceMatches(title, t, i);
    HighlightMarksOccurrence(title, t, i);
  }
}
