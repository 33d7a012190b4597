# Search view controller of SpeakX

This project models the logic inside the React component `QuestionsComponent`
of `FrontEnd/src/App.js`, and proves properties of that model. The component is
a question search page. The user types a query. The component asks a remote
search client for one page of matching questions, ten per page. It caches every
successful answer under the string key `${query}-${page}` and shows a row of at
most five page-number buttons.

The model has one module per concern:

- `Text`: JavaScript's `String.prototype.trim`, used to decide whether a query is blank. Also the decimal string of an integer page number, as a template literal prints it.
- `CacheKey`: the key `query + "-" + page` and its decoding at the last `-`. For non-negative pages, distinct (query, page) pairs never share a key.
- `PageWindow`: the start/end clamp of `renderPageNumbers` and its loop, as a method proved against a pure window function. Also the disabled states of the Previous and Next buttons.
- `SearchModel`: the component's state as a value (`ViewState`) and the transitions of `handleSearch`, `handleQueryChange` and the `setPage` of `handlePageChange`. The client's reply is a parameter `Outcome = Success(result) | Failure`, so each step is a deterministic transition. `SearchRequest` says which client call a search makes, if any.
- `SearchController`: the component as a class with one field per `useState` slot, except `pageSize`: it is never set, so it is the constant `SearchModel.PageSize`. Each handler is a method proved to make exactly the `SearchModel` transition and to report the request it sent to the client.
- `SearchRuns`: sequences of user events and client replies, and the invariants every such sequence keeps:
  - loading is false between events;
  - the cache only grows;
  - a cached pair is never requested again;
  - clicks on the buttons the pagination bar shows keep the page at least 1;
  - every cache entry, read through the key of any non-negative (query, page), is what the client answered for exactly that pair.

Two behaviours of the code are easy to miss:

- A blank query clears the displayed questions and sets the total to 0. It does not reset `totalPages`, which keeps its previous value. The model keeps this.
- The code has no guard that drops a late response for a (query, page) that is no longer current. This cannot happen in the model, because each search runs to completion before the next event (see "## Left out").

## Model

| member | source | states |
|---|---|---|
| `Text.TrimStart` | FrontEnd/src/App.js:25 | The result is a suffix of the input. Everything cut off is whitespace. The result is empty or starts with a non-space. |
| `Text.TrimEnd` | FrontEnd/src/App.js:25 | The result is a prefix of the input. Everything cut off is whitespace. The result is empty or ends with a non-space. |
| `Text.Trim` | FrontEnd/src/App.js:25 | `trim` never lengthens the string, and a non-empty result starts and ends with a non-space. |
| `Text.TrimIsMiddle` | FrontEnd/src/App.js:25 | `trim` returns the middle of the string: character for character, the slice that starts where the leading whitespace ends. |
| `Text.TrimCutsOnlyWhitespace` | FrontEnd/src/App.js:25 | Everything `trim` cuts off, before and after that slice, is whitespace. |
| `Text.TrimEmptyIffAllWhitespace` | FrontEnd/src/App.js:25 | `trim` gives the empty string exactly when every character is ECMAScript whitespace or a line terminator (both directions). |
| `Text.DecimalString` | FrontEnd/src/App.js:31 | The printed page number is a non-empty digit string with no leading zero. |
| `Text.ParseDecimalString` | FrontEnd/src/App.js:31 | Reading the digits back gives the number, so the printing is one-to-one on naturals. |
| `Text.NumberString` | FrontEnd/src/App.js:31 | A non-negative page prints as digits only. A negative page prints as `-` followed by digits. |
| `CacheKey.KeyShape` | FrontEnd/src/App.js:31 | The key `Key` builds starts with the query, followed by `-`. For a non-negative page, only digits follow. |
| `CacheKey.LastIndexOf` | FrontEnd/src/App.js:31 | The result is the position of the last `c`, or None when `c` does not occur. |
| `CacheKey.ParseKey` | FrontEnd/src/App.js:46 | Any pair the parse returns re-encodes to the very key parsed. |
| `CacheKey.ParseKeyOfKey` | FrontEnd/src/App.js:46 | Parsing the key of (query, page) at its last `-` returns (query, page), for every page >= 0. |
| `CacheKey.KeyInjective` | FrontEnd/src/App.js:31 | Two pairs with non-negative pages and the same key are the same pair, so the string-keyed cache acts as a map from pairs. |
| `CacheKey.NegativePageKeysCollide` | FrontEnd/src/App.js:31 | For negative pages the encoding is not injective: ("a", -1) and ("a-", 1) both give "a--1". |
| `PageWindow.WindowBounds` | FrontEnd/src/App.js:73-82 | The start is at least 1, the end is at most totalPages, and the span is under five. When 1 <= page <= totalPages, the page lies inside the span and the span holds min(5, totalPages) pages. |
| `PageWindow.Range` | FrontEnd/src/App.js:85 | The result is the consecutive integers lo..hi, with length hi - lo + 1, or empty when lo > hi. |
| `PageWindow.PageNumbers` | FrontEnd/src/App.js:72-96 | The loop pushes exactly the window computed by the clamp, in order. |
| `PageWindow.Window` | FrontEnd/src/App.js:72-85 | Every number shown is a page in [1, totalPages]. At most five are shown, and they are consecutive. A current page in [1, totalPages] is among them, and the row is as long as the page count allows, up to five. |
| `PageWindow.WindowCentred` | FrontEnd/src/App.js:75-76 | From page 3 up to two pages before the last, the row is the current page with two pages on either side. |
| `PageWindow.WindowPinnedToEnds` | FrontEnd/src/App.js:78-82 | For a page in range, the row starts at page 1 when the page is among the first three, and ends at the last page when it is among the last three. With `Window`'s length and consecutiveness and `WindowCentred`, this fixes the row for every page in range. |
| `PageWindow.WindowExamples` | FrontEnd/src/App.js:72-85 | (3,10) gives 1..5, (10,10) gives 6..10, (5,10) gives 3..7 and (1,3) gives 1..3. With zero pages the row is empty. |
| `PageWindow.ButtonsStayOnPositivePages` | FrontEnd/src/App.js:89-145 | From a page of at least 1, an enabled Previous leads to a page of at least 1, Next leads to a page of at least 1, and every number in the row is at least 1. |
| `PageWindow.NextEnabledPastLastPage` | FrontEnd/src/App.js:143-145 | Next is disabled only on exactly the last page. On any page beyond the count it is enabled, so with zero pages it is enabled on page 1 and leads to page 2, whose row is empty. |
| `SearchModel.Search` | FrontEnd/src/App.js:24-53 | A search never changes the query or the page. It never leaves loading true when it was false. It never drops or changes an existing cache entry. It adds at most the entry for the current key. |
| `SearchModel.BlankIffWhitespace` | FrontEnd/src/App.js:25 | `IsBlank` holds exactly when every character of the query is whitespace (both directions). |
| `SearchModel.SearchRequestAsksCurrentPair` | FrontEnd/src/App.js:25-40 | `SearchRequest` makes no client call exactly when the query is blank or its key is cached (both directions). A call asks for the current query and page with page size 10. |
| `SearchModel.BlankSearchClears` | FrontEnd/src/App.js:25-29 | A blank query makes no client call and sets the questions to [] and the total to 0. It leaves totalPages, loading and the cache unchanged. |
| `SearchModel.CacheHitShowsEntry` | FrontEnd/src/App.js:31-36 | On a hit, no client call is made and the displayed fields equal the cached entry. Loading and the cache are unchanged. |
| `SearchModel.MissSuccessStoresResult` | FrontEnd/src/App.js:38-47 | On a miss, the client is asked for (query, page, 10). On success, the result is displayed and cached under the key. Every other entry is unchanged and loading ends false. |
| `SearchModel.MissFailureKeepsState` | FrontEnd/src/App.js:48-52 | On a miss answered with an error, the display and the cache are unchanged and loading ends false. |
| `SearchModel.SearchIdempotent` | FrontEnd/src/App.js:31-47 | After any search that did not fail on a miss, the same search makes no client call and changes nothing, whatever the client would have said. |
| `SearchModel.FailureIsRetried` | FrontEnd/src/App.js:44-52 | Failures are not cached: after one, the same search sends the same request again. |
| `SearchModel.DisplayMatchesCache` | FrontEnd/src/App.js:31-47 | After a search for a non-blank query, whenever the current key is cached, the display is that entry. |
| `SearchModel.QueryChange` | FrontEnd/src/App.js:61-63 | A query change sets the query to the new text and the page to 1, whatever the page was. Loading, the display and the cache are unchanged. |
| `SearchModel.PageChange` | FrontEnd/src/App.js:67-68 | A page change sets the page to the new value and changes no other field. |
| `SearchController.QuestionsComponent.constructor` | FrontEnd/src/App.js:6-13 | The fields start as the initial `useState` values. |
| `SearchController.QuestionsComponent.HandleSearch` | FrontEnd/src/App.js:24-53 | The new state is `Search` of the old state and the reply. The request returned is `SearchRequest` of the old state. |
| `SearchController.QuestionsComponent.HandleQueryChange` | FrontEnd/src/App.js:61-64 | The new state is `QueryChange` of the old state. |
| `SearchController.QuestionsComponent.HandlePageChange` | FrontEnd/src/App.js:67-70 | The new state is `Search` after `PageChange`. The request is the one that search makes. |
| `SearchRuns.InitialSearchIsQuiet` | FrontEnd/src/App.js:6-13 | `Initial` has the `useState` initial values: empty query, page 1, not loading, empty cache. On that state the search triggered on mount makes no client call and changes nothing. |
| `SearchRuns.StepKeepsIdle` | FrontEnd/src/App.js:38-52 | No event leaves loading true if it was false before. |
| `SearchRuns.RunKeepsIdle` | FrontEnd/src/App.js:12 | Loading stays false across any sequence of events. |
| `SearchRuns.RunCacheGrows` | FrontEnd/src/App.js:44-47 | No sequence of events evicts or overwrites a cache entry. |
| `SearchRuns.CachedPairNeverRequested` | FrontEnd/src/App.js:31-40 | Once a (query, page) is cached, no later event asks the client for that pair. |
| `SearchRuns.InsertKeepsCacheSound` | FrontEnd/src/App.js:44-47 | Storing the client's answer under the key of its own pair keeps the invariant "each entry read through a non-negative pair's key is the client's answer for that pair". |
| `SearchRuns.SearchKeepsCacheSound` | FrontEnd/src/App.js:31-47 | A search at a non-negative page keeps that invariant, with the new answer added to the log. |
| `SearchRuns.StepKeepsCacheSound` | FrontEnd/src/App.js:24-70 | Every event keeps the invariant, and a non-negative page stays non-negative. |
| `SearchRuns.RunKeepsCacheSound` | FrontEnd/src/App.js:24-70 | Any sequence of events that never moves to a negative page keeps the invariant. |
| `SearchRuns.RunPagesNonNegative` | FrontEnd/src/App.js:61-68 | The page stays non-negative when every page change is non-negative. |
| `SearchRuns.ButtonRunStaysOnPositivePages` | FrontEnd/src/App.js:89-145 | Take a run in which every page change is a click on a button shown in the state before it: Previous when enabled, Next when enabled, or a number of the row. From a page of at least 1, every such page change is non-negative and the page stays at least 1. |
| `SearchRuns.ButtonRunFromInitialIsNonNegative` | FrontEnd/src/App.js:8-145 | Every run of button clicks from the initial state meets the non-negative-page condition of the soundness lemmas. |
| `SearchRuns.DisplayedResultWasFetchedForCurrentPair` | FrontEnd/src/App.js:31-47 | From the initial state, after any events with non-negative pages: a search that ends with its key cached displays what the client answered for exactly the current (query, page). |
| `SearchRuns.NegativePageShowsAnotherQuery` | FrontEnd/src/App.js:31-36 | Take a sound cache holding only the answer for ("a-", 1). A search for ("a", -1) hits that entry and shows an answer never fetched for ("a", -1). |
| `SearchRuns.SingletonCacheSound` | FrontEnd/src/App.js:44-47 | A cache holding only the answer for ("a-", 1) satisfies the soundness invariant for a log holding that one answer. |
| `SearchRuns.NegativePageHitsOtherEntry` | FrontEnd/src/App.js:31-36 | With query "a" at page -1 and only the ("a-", 1) entry cached, the search makes no client call and displays that entry. |
| `SearchRuns.CatScenario` | FrontEnd/src/App.js:38-47 | Type "cat" and search; the client answers one question on one page. There is exactly one request ("cat", 1, 10). One question, total 1 and one page are shown, the row is [1], and Previous and Next are both disabled (lines 138 and 145). |

## Left out

- The search client `searchQuestions` (lines 2 and 40) does network I/O in a module not modelled here. Its answer is the `Outcome` parameter, and the method returns the request it would send.
- The debounced search of `handleQueryChange` (lines 15-22, 59 and 64) is not modelled. It calls the `handleSearch` of the render in which the key was typed. That closure still holds the old query, page and cache, so 300 ms later it searches the previous (query, page) and can overwrite the display. Each change of `handleSearch` also builds a new debounce closure with its own timer, so the `clearTimeout` at line 19 never cancels an earlier timer. The model has no timers and no stale closures.
- The `useEffect` at lines 55-57 is React scheduling. It runs `handleSearch` again whenever `handleSearch` is rebuilt, that is, whenever `searchQuery`, `page`, `pageSize` or `cache` changes (the dependencies at line 53). This is what searches for a newly typed query. The model represents each such run as a separate `SearchRun` event and claims nothing about when they happen.
- Asynchronous interleaving is left out. Each search runs to completion before the next event, so overlapping fetches and out-of-order completions are not modelled. The code has no guard against stale responses, and none is modelled.
- `SearchController.QuestionsComponent.HandlePageChange`: in React, the `handleSearch` called at line 69 still sees the previous render's page. The model sets the page and then searches for the new page, in sequence.
- The `console.error` call (line 49) is logging only.
- The JSX markup, CSS classes, the results list and the `active` class of the current page button (lines 86-151) are rendering. `PageWindow.PageNumbers` returns the page numbers instead of button elements. Of the markup, only the disabled conditions of Previous and Next are kept.
- `Text.NumberString` models the JavaScript string of an integer only. JavaScript numbers are doubles: integers of 10^21 and above print in exponent form, `page + 1` is exact only up to 2^53, and fractional or NaN pages are not modelled.
- The test `cache[key]` at line 31 is modelled as key membership. Cached entries are objects, so they are always truthy. Every key ends in `-` and digits, so no key can be an `Object.prototype` property name.
- `SearchRuns.DisplayedResultWasFetchedForCurrentPair` is stated only for event sequences that never move to a negative page. The source promises nothing for such pages, and `SearchRuns.NegativePageShowsAnotherQuery` shows that the property fails there. Every run of clicks on the buttons the bar shows meets that condition (`SearchRuns.ButtonRunFromInitialIsNonNegative`).
