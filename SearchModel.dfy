/**
 * The state of the search view and the transitions its handlers make,
 * as values: `Search` is one run of `handleSearch` with the search
 * client's reply given as a parameter, `QueryChange` the state updates
 * of `handleQueryChange`, `PageChange` the page update of
 * `handlePageChange`. The class in module SearchController is proved to
 * make exactly these transitions.
 */
module SearchModel {
  import opened Wrappers
  import opened Text
  import opened CacheKey

  /** The page size the component passes to the client; it is never changed. */
  const PageSize: int := 10

  datatype Question = Question(id: string, title: string, kind: string)

  /** What the client returns and what the cache stores for one (query, page). */
  datatype ResultPage = ResultPage(questions: seq<Question>, totalResults: int, totalPages: int)

  /** The reply the search client gives to a request: a result page, or a thrown error. */
  datatype Outcome = Success(result: ResultPage) | Failure

  /** The arguments of one call to the search client. */
  datatype Request = Request(query: string, page: int, pageSize: int)

  /** The component's state fields. */
  datatype ViewState = ViewState(
    query: string,
    page: int,
    loading: bool,
    questions: seq<Question>,
    totalResults: int,
    totalPages: int,
    cache: map<string, ResultPage>)

  /** The state after the first render. */
  const Initial := ViewState("", 1, false, [], 0, 0, map[])

  /** The three result fields on display. */
  function Displayed(v: ViewState): ResultPage
  {
    ResultPage(v.questions, v.totalResults, v.totalPages)
  }

  /** `!query.trim()`: the query is empty once whitespace is trimmed. */
  predicate IsBlank(query: string)
  {
    Trim(query) == []
  }

  /** Every entry of `before` is still in `after` with the same value. */
  predicate CacheExtends(before: map<string, ResultPage>, after: map<string, ResultPage>)
  {
    forall k | k in before :: k in after && after[k] == before[k]
  }

  /**
   * The client call a search makes: none for a blank query or a cache
   * hit; otherwise one call for exactly the current query and page, with
   * the fixed page size.
   */
  function SearchRequest(v: ViewState): Option<Request>
  {
    if IsBlank(v.query) || Key(v.query, v.page) in v.cache then None
    else Some(Request(v.query, v.page, PageSize))
  }

  /**
   * One search: a blank query clears the list and the count; a cache
   * hit copies the entry to the display; a miss asks the client and, on
   * success, displays and caches its answer, on failure changes nothing
   * but the loading flag, which a miss always leaves false. A search
   * never changes the query or the page, and the cache only gains the
   * entry for the current key.
   */
  function Search(v: ViewState, reply: Outcome): (r: ViewState)
    ensures r.query == v.query && r.page == v.page
    ensures r.loading ==> v.loading
    ensures CacheExtends(v.cache, r.cache)
    ensures r.cache.Keys <= v.cache.Keys + {Key(v.query, v.page)}
  {
    var key := Key(v.query, v.page);
    if IsBlank(v.query) then
      v.(questions := [], totalResults := 0)
    else if key in v.cache then
      var entry := v.cache[key];
      v.(questions := entry.questions, totalResults := entry.totalResults, totalPages := entry.totalPages)
    else
      match reply
      case Success(result) =>
        v.(questions := result.questions, totalResults := result.totalResults,
           totalPages := result.totalPages, cache := v.cache[key := result], loading := false)
      case Failure =>
        v.(loading := false)
  }

  /** `handleQueryChange`: the new text becomes the query and the page goes back to 1. */
  function QueryChange(v: ViewState, value: string): (r: ViewState)
    ensures r.query == value && r.page == 1
    ensures r.loading == v.loading && Displayed(r) == Displayed(v) && r.cache == v.cache
  {
    v.(query := value, page := 1)
  }

  /** The `setPage` of `handlePageChange`: the page becomes `newPage`, whatever its value. */
  function PageChange(v: ViewState, newPage: int): (r: ViewState)
    ensures r.page == newPage
    ensures r.query == v.query && r.loading == v.loading && Displayed(r) == Displayed(v) && r.cache == v.cache
  {
    v.(page := newPage)
  }

  /** A query is blank exactly when every character of it is whitespace. */
  lemma BlankIffWhitespace(query: string)
    ensures IsBlank(query) <==> AllWhitespace(query)
  {
    TrimEmptyIffAllWhitespace(query);
  }

  /**
   * A search calls the client exactly when the query is not blank and
   * its key is not cached, and then asks for the current query and page
   * with the fixed page size.
   */
  lemma SearchRequestAsksCurrentPair(v: ViewState)
    ensures SearchRequest(v).None? <==> IsBlank(v.query) || Key(v.query, v.page) in v.cache
    ensures SearchRequest(v).Some? ==>
              && SearchRequest(v).value.query == v.query
              && SearchRequest(v).value.page == v.page
              && SearchRequest(v).value.pageSize == PageSize
  {
  }

  /** A blank query: list cleared, count zero, page count, loading flag and cache untouched, no client call. */
  lemma BlankSearchClears(v: ViewState, reply: Outcome)
    requires IsBlank(v.query)
    ensures SearchRequest(v) == None
    ensures var r := Search(v, reply);
      && r.questions == [] && r.totalResults == 0
      && r.totalPages == v.totalPages && r.loading == v.loading && r.cache == v.cache
  {
  }

  /** A cache hit shows the cached entry, asks nothing of the client, and leaves loading and the cache alone. */
  lemma CacheHitShowsEntry(v: ViewState, reply: Outcome)
    requires !IsBlank(v.query) && Key(v.query, v.page) in v.cache
    ensures SearchRequest(v) == None
    ensures var r := Search(v, reply);
      && Displayed(r) == v.cache[Key(v.query, v.page)]
      && r.loading == v.loading && r.cache == v.cache
  {
  }

  /** A miss answered with a result: the result is shown and cached under the key, other entries stay as they were. */
  lemma MissSuccessStoresResult(v: ViewState, result: ResultPage)
    requires !IsBlank(v.query) && Key(v.query, v.page) !in v.cache
    ensures SearchRequest(v) == Some(Request(v.query, v.page, PageSize))
    ensures var r := Search(v, Success(result));
      && Displayed(r) == result && !r.loading
      && r.cache.Keys == v.cache.Keys + {Key(v.query, v.page)}
      && r.cache[Key(v.query, v.page)] == result
      && forall k | k in v.cache :: r.cache[k] == v.cache[k]
  {
  }

  /** A miss answered with an error: the stale display and the cache remain, loading ends false. */
  lemma MissFailureKeepsState(v: ViewState)
    requires !IsBlank(v.query) && Key(v.query, v.page) !in v.cache
    ensures SearchRequest(v) == Some(Request(v.query, v.page, PageSize))
    ensures var r := Search(v, Failure);
      && Displayed(r) == Displayed(v) && r.cache == v.cache && !r.loading
  {
  }

  /**
   * Searching again for the same (query, page) after a search that did
   * not fail on a miss asks nothing of the client and changes nothing,
   * whatever the client would have replied.
   */
  lemma SearchIdempotent(v: ViewState, reply: Outcome, again: Outcome)
    requires SearchRequest(v).None? || reply.Success?
    ensures SearchRequest(Search(v, reply)) == None
    ensures Search(Search(v, reply), again) == Search(v, reply)
  {
  }

  /** Failures are never cached: after one, the same search asks the client again with the same request. */
  lemma FailureIsRetried(v: ViewState)
    requires SearchRequest(v).Some?
    ensures SearchRequest(Search(v, Failure)) == SearchRequest(v)
  {
  }

  /** After a search for a non-blank query, whenever the key is cached the display is that cache entry. */
  lemma DisplayMatchesCache(v: ViewState, reply: Outcome)
    requires !IsBlank(v.query)
    ensures var r := Search(v, reply);
      Key(r.query, r.page) in r.cache ==> Displayed(r) == r.cache[Key(r.query, r.page)]
  {
  }
}
