/**
 * The search view's controller as an object: one field per piece of
 * component state except the page size, which is never set and is the
 * constant `PageSize`; one method per handler. Each method is proved to
 * leave the object in the state the matching transition of SearchModel
 * gives, and to report the client call it made, if any.
 */
module SearchController {
  import opened Wrappers
  import opened CacheKey
  import opened SearchModel

  class QuestionsComponent {
    var searchQuery: string
    var page: int
    var loading: bool
    var questions: seq<Question>
    var totalResults: int
    var totalPages: int
    var cache: map<string, ResultPage>

    /** The fields as a value. */
    function State(): ViewState
      reads this
    {
      ViewState(searchQuery, page, loading, questions, totalResults, totalPages, cache)
    }

    /** The initial values of the component's state. */
    constructor ()
      ensures State() == Initial
    {
      searchQuery, page, loading := "", 1, false;
      questions, totalResults, totalPages := [], 0, 0;
      cache := map[];
    }

    /**
     * `handleSearch`, with `reply` standing for what the client answers
     * if it is called. Returns the request sent to the client, or None
     * when the query is blank or the key is cached.
     */
    method HandleSearch(reply: Outcome) returns (request: Option<Request>)
      modifies this
      ensures request == SearchRequest(old(State()))
      ensures State() == Search(old(State()), reply)
    {
      if IsBlank(searchQuery) {
        questions := [];
        totalResults := 0;
        return None;
      }
      var key := Key(searchQuery, page);
      if key in cache {
        var entry := cache[key];
        questions := entry.questions;
        totalResults := entry.totalResults;
        totalPages := entry.totalPages;
        return None;
      }
      loading := true;
      request := Some(Request(searchQuery, page, PageSize));
      match reply {
        case Success(result) =>
          questions := result.questions;
          totalResults := result.totalResults;
          totalPages := result.totalPages;
          cache := cache[key := result];
        case Failure =>
      }
      loading := false;
    }

    /** `handleQueryChange`: stores the typed text and goes back to page 1. */
    method HandleQueryChange(value: string)
      modifies this
      ensures State() == QueryChange(old(State()), value)
    {
      searchQuery := value;
      page := 1;
    }

    /** `handlePageChange`: sets the page, then searches at once for the new page. */
    method HandlePageChange(newPage: int, reply: Outcome) returns (request: Option<Request>)
      modifies this
      ensures request == SearchRequest(PageChange(old(State()), newPage))
      ensures State() == Search(PageChange(old(State()), newPage), reply)
    {
      page := newPage;
      request := HandleSearch(reply);
    }
  }
}
