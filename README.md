# Client-side search, theme and table of contents of a static blog

This project models the logic in `assets/js/script.js`, the one browser script of a static
blog, and proves properties of that model. Most of the script is DOM and event wiring.
The modelled logic is:

- **Search filter** (`searchArticles`). The query is lower-cased and trimmed. The result is the
  in-order subsequence of index posts whose title, excerpt, category, content or (when present)
  keywords contain the query as a substring. Module `Search`.
- **Index cache** (`loadSearchIndex`). `window.searchIndex` is a one-slot lazy cache. The
  fetch and JSON parse are replaced by a `FetchOutcome` parameter. Module `SearchIndex`: the
  function `LoadStep` and the class `SearchIndexCache`, whose `Load` updates the slot.
- **Regex escaping and highlighting** (`escapeRegex`, `highlightText`). The escaped query is
  read back as the literal it denotes. The global, case-insensitive replace is modelled as a
  left-to-right scan that cuts the text into plain characters and wrapped occurrences
  (`Piece`). Module `Highlight`.
- **Search view** (the debounced input handler). Picks ALL, EMPTY or RESULTS and shows exactly
  one of the three page regions. Module `SearchView`: the function `Settle` and the class
  `SearchPage`.
- **Theme** (`initTheme`, `toggleTheme`, the `prefers-color-scheme` change listener). The
  `theme` entry of `localStorage` plus the `dark` class. Module `Theme`: pure transitions and
  the class `ThemeController`.
- **Table of contents** (`generateTOC`, `toggleTOC`). Ids are assigned in place over an
  `array<Heading>`, and one `TocLink` is produced per heading. Module `Toc`: the class
  `TocPanel` and the functions that specify it.

String primitives live in module `Text`:
- `toLowerCase` is ASCII-only.
- `trim` uses the exact ECMAScript white-space and line-terminator set.
- `includes` is a substring test.
- The decimal form of an index in `heading-${index}`.

Inputs the script gets from the browser become parameters:
- the fetch outcome;
- `matchMedia(...).matches`;
- the query as it stood when typing paused;
- whether `article-content` and the chevron exist.

In three places the code does not do what its names suggest (a stored theme choice, a
cached load that happens once), and the model follows the code:
- A stored theme of `""` is falsy in `!savedTheme`, so it counts as "nothing stored".
  `initTheme` then follows the system preference, and the change listener keeps working.
  It does not give light.
- A failed load is retried. It leaves `window.searchIndex` unset, so the next call fetches
  again. So "two loads perform at most one fetch" holds only when the first load did not fail
  (`LoadTwiceFetchesOnce`, `FailedLoadRetries`).
- An empty index that did load (`[]`) is truthy. It stays cached and is never refetched.

## Model

| member | source | states |
|---|---|---|
| Text.Trim | assets/js/script.js:149 | the result is the input with white space removed from both ends and nowhere else; it neither starts nor ends with white space |
| Text.BlankIff | assets/js/script.js:215 | a query trims to "" exactly when every character is white space |
| Text.TrimLower | assets/js/script.js:149 | lower-casing then trimming equals trimming then lower-casing |
| Text.Contains | assets/js/script.js:154 | `includes` holds exactly when the needle occurs at some index of the haystack |
| Text.Lower | assets/js/script.js:149 | lower-casing keeps the length, leaves no ASCII capital, and keeps every character that is not one |
| Text.LowerCapitals | assets/js/script.js:149 | every ASCII capital becomes its small letter (code point plus 32) |
| Text.NatToString | assets/js/script.js:106 | the decimal form of an index is non-empty, all digits, and ends in the last digit |
| Text.NatToStringValue | assets/js/script.js:106 | the digits denote the index: their decimal value is the number rendered |
| Text.NatToStringNoLeadingZero | assets/js/script.js:106 | only 0 is written with a leading '0', so the rendering is the canonical decimal form |
| Text.NatToStringInjective | assets/js/script.js:106 | different indices give different decimal forms |
| Search.SearchTerm | assets/js/script.js:149 | the term is the trimmed query lower-cased, and has no white space at either end |
| Search.Blank | assets/js/script.js:215 | a query is blank exactly when it consists of white space only |
| Search.Matches | assets/js/script.js:154-167 | a post matches exactly when one of its searched fields (title, excerpt, category, content, and keywords when present and non-empty) contains the term after lower-casing |
| Search.Filter | assets/js/script.js:153-168 | the result is no longer than the index; a post is in it exactly when it is in the index and matches |
| Search.SearchArticles | assets/js/script.js:146-169 | an absent index or a blank term gives []; otherwise the result is the filter of the index by the trimmed, lower-cased term |
| Search.SearchResultsAreMatches | assets/js/script.js:146-168 | a post is returned exactly when the index is loaded, the query is not blank, and the post is in the index and matches |
| Search.SearchTermEmptyIffBlank | assets/js/script.js:149-151 | the search's empty-term test agrees with the handler's blank test |
| Search.FilterAppend | assets/js/script.js:153-168 | filtering a concatenation is the concatenation of the filtered parts |
| Search.FilterSingle | assets/js/script.js:153-168 | a single post is kept exactly when it matches |
| Search.FilterIsSubsequence | assets/js/script.js:153-168 | the result is an in-order subsequence of the index |
| Search.FilterAllMatch | assets/js/script.js:153-168 | filtering posts that all match changes nothing |
| Search.SearchIdempotent | assets/js/script.js:146-168 | searching the results again with the same query returns them unchanged |
| Search.FilterCount | assets/js/script.js:153-168 | the number of results equals the number of matching posts of the index |
| SearchIndex.LoadStep | assets/js/script.js:171-187 | a set cache is returned with no fetch and stays as it is; otherwise one fetch; success stores and returns the posts; failure returns [] and leaves the cache unset |
| SearchIndex.LeadingFailures | assets/js/script.js:176-186 | counts the failed fetches before the first success; the outcome after them is a success |
| SearchIndex.CachedNeverFetches | assets/js/script.js:172-174 | once the cache is set, any further calls fetch nothing and leave it unchanged |
| SearchIndex.FetchesUntilFirstSuccess | assets/js/script.js:171-187 | from an unset cache, calls fetch until the first success (one fetch per failure, plus one);  the first successful posts then stay cached |
| SearchIndex.LoadTwiceFetchesOnce | assets/js/script.js:172-182 | two calls fetch at most once, and return the same posts, unless the first fetch failed |
| SearchIndex.FailedLoadRetries | assets/js/script.js:176-186 | after a failed fetch the next call fetches again |
| SearchIndex.SearchIndexCache.Load | assets/js/script.js:171-187 | the returned posts and the new `searchIndex` are those of `LoadStep`; the fetch count grows by one exactly when a fetch was issued |
| Highlight.EscapeRegex | assets/js/script.js:282-284 | the output is the input's length plus one per metacharacter; it is a sequence of literal atoms; deleting the escaping backslashes gives back the input |
| Highlight.EscapeRegexAppend | assets/js/script.js:282-284 | escaping works character by character: it distributes over concatenation |
| Highlight.EscapeRegexAt | assets/js/script.js:282-284 | each metacharacter of the input appears preceded by a backslash; every other character is copied, at the shifted position |
| Highlight.EqualIgnoringCaseIff | assets/js/script.js:275 | the case-insensitive comparison of the `i` flag is equality after lower-casing |
| Highlight.Pieces | assets/js/script.js:275-279 | the scanned pieces, stripped of their wrapping, spell the original text |
| Highlight.HighlightText | assets/js/script.js:272-280 | an empty query returns the text; otherwise the pattern built from the escaped query matches the query itself, and the result is the rendering of its pieces |
| Highlight.PiecesWithoutMatch | assets/js/script.js:275-279 | where the query occurs nowhere, no piece is wrapped and the rendering is the text |
| Highlight.HighlightWithoutOccurrence | assets/js/script.js:272-280 | a query that does not occur, case-insensitively, leaves the text unchanged |
| Highlight.PieceKindAt | assets/js/script.js:275-279 | a piece is wrapped exactly when an occurrence of the query starts where it stands, so the scan misses no occurrence it could take |
| Highlight.WrappedSegmentsEqualQuery | assets/js/script.js:275-279 | every wrapped segment has the query's length and equals it case-insensitively |
| Highlight.HighlightWrapsExactlyOccurrences | assets/js/script.js:272-280 | the highlighted text renders a cut of the text whose wrapped segments are exactly occurrences of the query, each starting where the previous segment ends: leftmost first and non-overlapping |
| Highlight.HighlightNeverShrinks | assets/js/script.js:276-279 | highlighting only inserts: the result is never shorter than the text |
| Highlight.HighlightLongQuery | assets/js/script.js:275-279 | a query longer than the text leaves it unchanged |
| Highlight.OccurrenceIsMarked | assets/js/script.js:275-279 | if the query occurs anywhere, at least one segment is wrapped |
| Highlight.RenderLength | assets/js/script.js:276-279 | the output length is the text length plus one tag pair per wrapped segment |
| Highlight.HighlightStripsBack | assets/js/script.js:272-280 | deleting the inserted `<mark …>` and `</mark>` tags gives back the original text |
| Highlight.HighlightMarksOccurrence | assets/js/script.js:272-280 | a query that occurs in the text makes the output longer: a mark was inserted |
| SearchView.SelectView | assets/js/script.js:215-238 | ALL exactly for a blank query; EMPTY exactly for a non-blank query without results; RESULTS carries the positive number of results |
| SearchView.Settle | assets/js/script.js:215-238 | a blank query gives ALL and the cache unchanged; otherwise the cache is the one the load leaves, a set cache is kept, and EMPTY or RESULTS follows the search over that cache, with its count |
| SearchView.VisibleFor | assets/js/script.js:215-238 | exactly one of all-articles, results-container and no-results is visible; all-articles for ALL, no-results for EMPTY |
| SearchView.BlankQueryShowsAll | assets/js/script.js:215-221 | a blank query shows ALL and leaves the cache unchanged |
| SearchView.ResultsCountIsMatchCount | assets/js/script.js:223-238 | for a non-blank query, RESULTS is shown exactly when some indexed post matches; the count shown is the number of matching posts |
| SearchView.EmptyMeansNoMatch | assets/js/script.js:224-234 | for a non-blank query, EMPTY is shown exactly when the index is unset after loading or none of its posts matches |
| SearchView.FailedLoadShowsEmpty | assets/js/script.js:224-234 | when the first load fails, a non-blank query shows EMPTY and the cache stays unset |
| SearchView.SearchPage.OnQuerySettled | assets/js/script.js:214-239 | the visible regions are those of the chosen view; the count changes only for RESULTS; the cache follows `LoadStep` only for a non-blank query; a fetch happens only then and only from an unset cache |
| SearchView.CardTitle | assets/js/script.js:248 | the rendered title is never shorter than the title, and equals it when the raw query is longer than the title |
| SearchView.FoundButUnmarked | assets/js/script.js:227-248 | a post that matches the trimmed term, under a raw query longer than its title, is returned by the search but its card title has no mark |
| SearchView.UntrimmedQueryLosesHighlight | assets/js/script.js:248 | title "Caching" with query "caching ": the post is found, but its rendered title has no mark |
| SearchView.CardTitleTrimmed | assets/js/script.js:248 | the title highlighted with the trimmed query (the corrected call): never shorter than the title, and the same as the rendered card title whenever the query has no surrounding white space |
| SearchView.TrimmedQueryHighlightsTitle | assets/js/script.js:248 | with the trimmed query, a post whose title contains the search term gets a mark in its title |
| Theme.InitialDark | assets/js/script.js:6-17 | stored "dark" gives dark; nothing stored (or "") follows the system; any other stored value gives light |
| Theme.Toggled | assets/js/script.js:20-28 | the flag flips, and the stored value is "dark" or "light" to match the new flag |
| Theme.AfterSystemChange | assets/js/script.js:483-493 | a system change sets the flag to the system's preference only when nothing is stored; stored values never change |
| Theme.ToggleTwice | assets/js/script.js:20-28 | two toggles restore the flag, and the stored value then names it |
| Theme.ToggleSurvivesReload | assets/js/script.js:6-28 | after a toggle, `initTheme` on reload produces the same flag whatever the system prefers |
| Theme.ToggleStopsSystemFollowing | assets/js/script.js:483-493 | after a toggle, system changes no longer move the flag |
| Theme.ThemeController.InitTheme | assets/js/script.js:6-17 | the flag becomes `InitialDark` of the stored value; storage is untouched |
| Theme.ThemeController.ToggleTheme | assets/js/script.js:20-28 | the new state is `Toggled` of the old one |
| Theme.ThemeController.OnSystemThemeChange | assets/js/script.js:483-493 | the new state is `AfterSystemChange` of the old one |
| Toc.AssignedId | assets/js/script.js:105-107 | an existing id is kept; a missing one becomes `heading-<index>`; the result is never empty |
| Toc.WithIds | assets/js/script.js:102-107 | generation keeps the number of headings |
| Toc.TocLinks | assets/js/script.js:102-127 | one link per heading |
| Toc.LinkFor | assets/js/script.js:109-112 | the link points at `#` plus the heading's id after generation (never a bare `#`), shows the heading's text, and has level 0 exactly for H2, else 1 |
| Toc.LinkAt | assets/js/script.js:102-126 | link k's href is `#` plus heading k's new id, and its text is heading k's text; the level is 0 for H2 and 1 otherwise; the id is kept or becomes `heading-k` |
| Toc.AllHeadingsHaveIds | assets/js/script.js:105-107 | after generation every heading has an id |
| Toc.GeneratedIdsDistinct | assets/js/script.js:105-107 | two headings that lacked an id get different ids |
| Toc.RegenerationIsStable | assets/js/script.js:102-127 | generating again over the generated headings changes neither the ids nor the links |
| Toc.TocPanel.GenerateToc | assets/js/script.js:91-128 | with no article or no headings nothing changes, so the list is not cleared; otherwise the ids are assigned in place and the list becomes exactly the generated links |
| Toc.ToggledDisplay | assets/js/script.js:136-142 | the result is "block" exactly when the display was "none"; otherwise "none" |
| Toc.ChevronFor | assets/js/script.js:136-142 | the chevron is rotate(0deg) exactly for an open list, rotate(-90deg) otherwise |
| Toc.ToggleTwice | assets/js/script.js:136-142 | once the display is "block" or "none", two toggles restore it |
| Toc.TocPanel.ToggleToc | assets/js/script.js:130-143 | without a chevron nothing changes; otherwise the display toggles and the chevron is rotate(0deg) for "block", rotate(-90deg) otherwise |
| Toc.TocPanel.SetUp | assets/js/script.js:444-448 | page load is `GenerateToc` followed by `ToggleToc`: the links and ids as generated (or unchanged without article or headings), the display toggled and the chevron set when there is one (else both unchanged); a list with no inline display ends collapsed with the chevron at -90deg |
| Toc.LoadedListIsCollapsed | assets/js/script.js:136-142 | example: toggling a list with no inline display yet collapses it, and the chevron for that is -90deg (the general page-load fact is the last ensures of `Toc.TocPanel.SetUp`) |

## Left out

- Case mapping is ASCII-only: `toLowerCase` and the regex `i` flag fold only 'A'..'Z'. Exact Unicode case folding differs between the two in JavaScript.
- JavaScript strings are UTF-16 code units. Here a `char` is a Unicode scalar value, so surrogate pairs are not modelled.
- The regular-expression engine is not modelled. `EscapeRegex` is proved to yield a pattern of literal atoms. `Unescape` reads back the literal it stands for. Matching is the scan in `Pieces`.
- Highlight.HighlightStripsBack: stated only for texts without a '<' character, because a text that already contains `<mark …>` tags could not be told apart from the inserted ones. For all texts, `Pieces` proves the piece-level form: stripped of their wrapping, the pieces spell the text.
- The network fetch and `response.json()` (assets/js/script.js:177-181) are network I/O. They are replaced by `FetchOutcome`. A body that parses to something other than an array of posts is not modelled.
- Two loads in flight at once are not modelled: event-loop concurrency. The model runs calls one after another.
- The debounce timer (assets/js/script.js:209-214) is timer behaviour. `OnQuerySettled` is the timeout body, run on the final query.
- The result-card markup (assets/js/script.js:241-264) and the class names are rendering. Only the highlighted title is kept, as `CardTitle`; the excerpt uses the same `HighlightText` call.
- `formatDate` (assets/js/script.js:286-290) depends on `Date` and locale formatting.
- `trackEvent`, page-view, load-time, error and online/offline listeners (assets/js/script.js:267, 400-411, 496-519) only log.
- The initial article count in `initializeSearch` (assets/js/script.js:201-206) is a DOM write of `index.length` and is not modelled.
- The TOC link click handler (assets/js/script.js:119-124: smooth scroll and `history.pushState`), the link class names and the `console.log` are browser calls.
- A missing `toc-content` element (assets/js/script.js:95, 134) is not modelled: the methods live on the list object itself. The missing article and the missing chevron are modelled.
- The handler's regions are assumed to exist, as the source does: it would throw if they were absent.
- Clipboard copy, `shareArticle`, the contact and newsletter forms, lazy image loading, smooth scrolling and the mobile-menu handlers use browser APIs and timers. They are left out.

## Findings

| source | as written | input that shows it | evidently intended | confidence | as-written member | corrected member |
|---|---|---|---|---|---|---|
| assets/js/script.js:248 | the result card highlights the title with the raw query, while the search used the trimmed query | title "Caching", query "caching " (trailing space): the post is found through its title, but the highlight pattern "caching " is longer than the title and nothing is marked | highlight with the trimmed query, so a post found through its title shows the match | medium; not executed | SearchView.UntrimmedQueryLosesHighlight | SearchView.TrimmedQueryHighlightsTitle |
