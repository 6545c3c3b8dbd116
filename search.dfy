/**
 * `searchArticles`: a case-insensitive substring filter over the loaded
 * search index.
 */
module Search {
  import opened Wrappers
  import opened Text

  /** One record of the search index. `keywords` is absent from some records. */
  datatype Post = Post(
    title: string,
    excerpt: string,
    category: string,
    content: string,
    keywords: Option<string>,
    url: string,
    date: string)

  /**
   * `query.toLowerCase().trim()`: the same as trimming first, and free of white space
   * at both ends.
   */
  function SearchTerm(query: string): (r: string)
    ensures r == Lower(Trim(query))
    ensures r == [] || (!IsWhitespace(r[0]) && !IsWhitespace(r[|r| - 1]))
  {
    TrimLower(query);
    Trim(Lower(query))
  }

  /** A query the handler treats as empty (`!query.trim()`): white space only. */
  predicate Blank(query: string)
    ensures Blank(query) <==> forall i :: 0 <= i < |query| ==> IsWhitespace(query[i])
  {
    BlankIff(query);
    Trim(query) == []
  }

  /** The fields the filter looks at: a missing or empty `keywords` is left out. */
  function SearchedFields(post: Post): seq<string> {
    [post.title, post.excerpt, post.category, post.content] +
    (if post.keywords.Some? && post.keywords.value != [] then [post.keywords.value] else [])
  }

  /**
   * The filter callback: the term occurs in one of the lower-cased fields.
   * A missing or empty `keywords` is falsy in `post.keywords && ...` and never matches.
   */
  predicate Matches(post: Post, term: string)
    ensures Matches(post, term) <==> exists f :: f in SearchedFields(post) && Contains(Lower(f), term)
  {
    assert post.title in SearchedFields(post) && post.excerpt in SearchedFields(post);
    assert post.category in SearchedFields(post) && post.content in SearchedFields(post);
    Contains(Lower(post.title), term) ||
    Contains(Lower(post.excerpt), term) ||
    Contains(Lower(post.category), term) ||
    Contains(Lower(post.content), term) ||
    (post.keywords.Some? && post.keywords.value != [] && Contains(Lower(post.keywords.value), term))
  }

  /** `posts.filter(...)`: the matching posts, in index order. */
  function Filter(posts: seq<Post>, term: string): (r: seq<Post>)
    ensures |r| <= |posts|
    ensures forall p :: p in r <==> p in posts && Matches(p, term)
  {
    if posts == [] then []
    else (if Matches(posts[0], term) then [posts[0]] else []) + Filter(posts[1..], term)
  }

  /** `searchArticles(query)`, reading the cached index `window.searchIndex`. */
  function SearchArticles(index: Option<seq<Post>>, query: string): (r: seq<Post>)
    ensures index == None ==> r == []
    ensures SearchTerm(query) == [] ==> r == []
    ensures index.Some? && SearchTerm(query) != [] ==> r == Filter(index.value, SearchTerm(query))
  {
    if index == None then []
    else
      var term := SearchTerm(query);
      if term == [] then [] else Filter(index.value, term)
  }

  /**
   * The results are exactly the posts of the index that match the trimmed,
   * lower-cased query, and only when the index is loaded and the query is not blank.
   */
  lemma SearchResultsAreMatches(index: Option<seq<Post>>, query: string)
    ensures forall p :: p in SearchArticles(index, query) <==>
      (index.Some? && !Blank(query) && p in index.value && Matches(p, SearchTerm(query)))
  {
    SearchTermEmptyIffBlank(query);
  }

  /** The blank test of the input handler and the empty-term test of the search agree. */
  lemma SearchTermEmptyIffBlank(query: string)
    ensures SearchTerm(query) == [] <==> Blank(query)
  {
    TrimLower(query);
  }

  /** Filtering distributes over concatenation: each post is kept or dropped on its own. */
  lemma {:induction false} FilterAppend(a: seq<Post>, b: seq<Post>, term: string)
    ensures Filter(a + b, term) == Filter(a, term) + Filter(b, term)
  {
    if a == [] {
      assert a + b == b;
    } else {
      assert (a + b)[0] == a[0];
      assert (a + b)[1..] == a[1..] + b;
      FilterAppend(a[1..], b, term);
    }
  }

  /** A post on its own is kept exactly when it matches. */
  lemma FilterSingle(p: Post, term: string)
    ensures Filter([p], term) == if Matches(p, term) then [p] else []
  {
    assert [p][1..] == [];
  }

  /** `s` is obtained from `t` by deleting elements, keeping the order of the rest. */
  ghost predicate IsSubsequence<T>(s: seq<T>, t: seq<T>)
    decreases |t|
  {
    if s == [] then true
    else if t == [] then false
    else (s[0] == t[0] && IsSubsequence(s[1..], t[1..])) || IsSubsequence(s, t[1..])
  }

  /** The filter keeps the order of the index. */
  lemma {:induction false} FilterIsSubsequence(posts: seq<Post>, term: string)
    ensures IsSubsequence(Filter(posts, term), posts)
    decreases |posts|
  {
    if posts != [] {
      FilterIsSubsequence(posts[1..], term);
      var r := Filter(posts, term);
      if Matches(posts[0], term) {
        assert r[0] == posts[0] && r[1..] == Filter(posts[1..], term);
      } else {
        assert r == Filter(posts[1..], term);
      }
    }
  }

  /** A filter whose every input already matches changes nothing. */
  lemma {:induction false} FilterAllMatch(posts: seq<Post>, term: string)
    requires forall p :: p in posts ==> Matches(p, term)
    ensures Filter(posts, term) == posts
  {
    if posts != [] {
      assert posts[0] in posts;
      FilterAllMatch(posts[1..], term);
      assert [posts[0]] + posts[1..] == posts;
    }
  }

  /** Searching the results of a search again with the same query returns them unchanged. */
  lemma SearchIdempotent(index: Option<seq<Post>>, query: string)
    ensures SearchArticles(Some(SearchArticles(index, query)), query) == SearchArticles(index, query)
  {
    var r := SearchArticles(index, query);
    if r != [] {
      FilterAllMatch(r, SearchTerm(query));
    }
  }

  /** The number of posts of `posts` that match. */
  function CountMatching(posts: seq<Post>, term: string): nat {
    if posts == [] then 0
    else (if Matches(posts[|posts| - 1], term) then 1 else 0) + CountMatching(posts[..|posts| - 1], term)
  }

  /** The result holds one entry per matching post of the index, duplicates included. */
  lemma {:induction false} FilterCount(posts: seq<Post>, term: string)
    ensures |Filter(posts, term)| == CountMatching(posts, term)
    decreases |posts|
  {
    if posts != [] {
      var init, last := posts[..|posts| - 1], posts[|posts| - 1];
      assert posts == init + [last];
      FilterAppend(init, [last], term);
      FilterSingle(last, term);
      FilterCount(init, term);
    }
  }
}
