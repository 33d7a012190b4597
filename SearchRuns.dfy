/**
 * Sequences of user events and client replies applied to the search
 * view, and the invariants every such sequence keeps: the loading flag
 * is false between events, the cache never loses or changes an entry,
 * a cached (query, page) is never asked of the client again, and every
 * cache entry, read back through the key of any non-negative
 * (query, page), is what the client answered for exactly that pair.
 */
module SearchRuns {
  import opened Wrappers
  import opened Text
  import opened CacheKey
  import opened PageWindow
  import opened SearchModel

  /** A typed query (its search comes as a separate SearchRun), a page button, or a search. */
  datatype Event =
    | QueryChanged(value: string)
    | PageChanged(newPage: int, reply: Outcome)
    | SearchRun(reply: Outcome)

  /** One answer of the client: the request's query and page and the result it returned. */
  datatype Fetch = Fetch(query: string, page: int, result: ResultPage)

  function Step(v: ViewState, e: Event): ViewState
  {
    match e
    case QueryChanged(value) => QueryChange(v, value)
    case PageChanged(newPage, reply) => Search(PageChange(v, newPage), reply)
    case SearchRun(reply) => Search(v, reply)
  }

  /** The client call an event makes, if any. */
  function Requested(v: ViewState, e: Event): Option<Request>
  {
    match e
    case QueryChanged(_) => None
    case PageChanged(newPage, _) => SearchRequest(PageChange(v, newPage))
    case SearchRun(_) => SearchRequest(v)
  }

  /** The successful answer a search obtained from the client, if it made a call. */
  function SearchFetched(v: ViewState, reply: Outcome): set<Fetch>
  {
    if SearchRequest(v).Some? && reply.Success? then {Fetch(v.query, v.page, reply.result)} else {}
  }

  /** The successful answer an event obtained from the client, if any. */
  function Fetched(v: ViewState, e: Event): set<Fetch>
  {
    match e
    case QueryChanged(_) => {}
    case PageChanged(newPage, reply) => SearchFetched(PageChange(v, newPage), reply)
    case SearchRun(reply) => SearchFetched(v, reply)
  }

  function Run(v: ViewState, es: seq<Event>): ViewState
    decreases |es|
  {
    if es == [] then v else Run(Step(v, es[0]), es[1..])
  }

  /** The client calls of a run, in order. */
  function Requests(v: ViewState, es: seq<Event>): seq<Request>
    decreases |es|
  {
    if es == [] then []
    else
      var here := match Requested(v, es[0]) case None => [] case Some(req) => [req];
      here + Requests(Step(v, es[0]), es[1..])
  }

  /** Every successful answer of a run. */
  function Log(v: ViewState, es: seq<Event>): set<Fetch>
    decreases |es|
  {
    if es == [] then {} else Fetched(v, es[0]) + Log(Step(v, es[0]), es[1..])
  }

  /** The page buttons move only to non-negative pages. */
  predicate NonNegativePages(es: seq<Event>)
  {
    forall i | 0 <= i < |es| :: es[i].PageChanged? ==> es[i].newPage >= 0
  }

  /**
   * A page the pagination bar can request from state `v`: the page
   * before it when Previous is enabled, the page after it when Next is
   * enabled, or a number of the row.
   */
  predicate ButtonTarget(v: ViewState, newPage: int)
  {
    || (!PreviousDisabled(v.page) && newPage == v.page - 1)
    || (!NextDisabled(v.page, v.totalPages) && newPage == v.page + 1)
    || newPage in Window(v.page, v.totalPages)
  }

  /** Every page change of the run is a click on a button shown in the state before it. */
  predicate ButtonRun(v: ViewState, es: seq<Event>)
    decreases |es|
  {
    es == [] || ((es[0].PageChanged? ==> ButtonTarget(v, es[0].newPage)) && ButtonRun(Step(v, es[0]), es[1..]))
  }

  /** Looking up any non-negative (query, page) finds only what the client answered for that pair. */
  ghost predicate CacheSound(cache: map<string, ResultPage>, log: set<Fetch>)
  {
    forall q: string, p: int | p >= 0 && Key(q, p) in cache :: Fetch(q, p, cache[Key(q, p)]) in log
  }

  /**
   * The first render's search (the effect runs once on mount) makes no
   * client call: the initial query is empty. It leaves the display empty
   * and the cache empty.
   */
  lemma InitialSearchIsQuiet(reply: Outcome)
    ensures Initial.query == "" && Initial.page == 1 && !Initial.loading && Initial.cache == map[]
    ensures SearchRequest(Initial) == None
    ensures Search(Initial, reply) == Initial
  {
    assert TrimStart(Initial.query) == [];
  }

  /** Loading is false after every event, the search included, when it was false before. */
  lemma StepKeepsIdle(v: ViewState, e: Event)
    requires !v.loading
    ensures !Step(v, e).loading
  {
  }

  lemma {:induction false} RunKeepsIdle(v: ViewState, es: seq<Event>)
    requires !v.loading
    ensures !Run(v, es).loading
    decreases |es|
  {
    if es != [] {
      StepKeepsIdle(v, es[0]);
      RunKeepsIdle(Step(v, es[0]), es[1..]);
    }
  }

  /** Entries are never evicted or overwritten. */
  lemma {:induction false} RunCacheGrows(v: ViewState, es: seq<Event>)
    ensures CacheExtends(v.cache, Run(v, es).cache)
    decreases |es|
  {
    if es != [] {
      var w := Step(v, es[0]);
      RunCacheGrows(w, es[1..]);
    }
  }

  /** Once a (query, page) is cached, no later event asks the client for it. */
  lemma {:induction false} CachedPairNeverRequested(v: ViewState, es: seq<Event>, q: string, p: int)
    requires Key(q, p) in v.cache
    ensures forall i | 0 <= i < |Requests(v, es)| ::
              Requests(v, es)[i].query != q || Requests(v, es)[i].page != p
    decreases |es|
  {
    if es != [] {
      var w := Step(v, es[0]);
      CachedPairNeverRequested(w, es[1..], q, p);
    }
  }

  /** Adding an answer to the log keeps a sound cache sound. */
  lemma CacheSoundMonotone(cache: map<string, ResultPage>, log: set<Fetch>, more: set<Fetch>)
    requires CacheSound(cache, log)
    ensures CacheSound(cache, log + more)
  {
  }

  /** Storing the client's answer for (q0, p0) under its key keeps the cache sound, because keys are injective. */
  lemma InsertKeepsCacheSound(cache: map<string, ResultPage>, log: set<Fetch>, q0: string, p0: int, result: ResultPage)
    requires CacheSound(cache, log) && p0 >= 0
    ensures CacheSound(cache[Key(q0, p0) := result], log + {Fetch(q0, p0, result)})
  {
    var cache' := cache[Key(q0, p0) := result];
    forall q: string, p: int | p >= 0 && Key(q, p) in cache'
      ensures Fetch(q, p, cache'[Key(q, p)]) in log + {Fetch(q0, p0, result)}
    {
      if Key(q, p) == Key(q0, p0) {
        KeyInjective(q, p, q0, p0);
      }
    }
  }

  /** A search at a non-negative page keeps the cache sound: the one entry it adds is keyed by its own pair. */
  lemma SearchKeepsCacheSound(v: ViewState, reply: Outcome, log: set<Fetch>)
    requires CacheSound(v.cache, log) && v.page >= 0
    ensures CacheSound(Search(v, reply).cache, log + SearchFetched(v, reply))
  {
    if SearchRequest(v).Some? && reply.Success? {
      MissSuccessStoresResult(v, reply.result);
      InsertKeepsCacheSound(v.cache, log, v.query, v.page, reply.result);
    } else {
      assert Search(v, reply).cache == v.cache;
      CacheSoundMonotone(v.cache, log, SearchFetched(v, reply));
    }
  }

  /** One event keeps the cache sound, given that the page searched is non-negative. */
  lemma StepKeepsCacheSound(v: ViewState, e: Event, log: set<Fetch>)
    requires CacheSound(v.cache, log) && v.page >= 0
    requires e.PageChanged? ==> e.newPage >= 0
    ensures CacheSound(Step(v, e).cache, log + Fetched(v, e))
    ensures Step(v, e).page >= 0
  {
    match e
    case QueryChanged(_) =>
      assert log + Fetched(v, e) == log;
    case PageChanged(newPage, reply) =>
      SearchKeepsCacheSound(PageChange(v, newPage), reply, log);
    case SearchRun(reply) =>
      SearchKeepsCacheSound(v, reply, log);
  }

  lemma {:induction false} RunKeepsCacheSound(v: ViewState, es: seq<Event>, log: set<Fetch>)
    requires CacheSound(v.cache, log) && v.page >= 0 && NonNegativePages(es)
    ensures CacheSound(Run(v, es).cache, log + Log(v, es))
    decreases |es|
  {
    if es != [] {
      StepKeepsCacheSound(v, es[0], log);
      var w := Step(v, es[0]);
      assert NonNegativePages(es[1..]) by {
        forall i | 0 <= i < |es| - 1 ensures es[1..][i] == es[i + 1] { }
      }
      RunKeepsCacheSound(w, es[1..], log + Fetched(v, es[0]));
      assert log + Fetched(v, es[0]) + Log(w, es[1..]) == log + Log(v, es);
    }
  }

  /**
   * From the initial state, through any events whose pages are
   * non-negative, a search that ends with its key cached displays
   * what the client answered for exactly the current (query, page).
   */
  lemma DisplayedResultWasFetchedForCurrentPair(es: seq<Event>, reply: Outcome)
    requires NonNegativePages(es)
    ensures var v := Run(Initial, es);
      var r := Search(v, reply);
      !IsBlank(v.query) && Key(v.query, v.page) in r.cache ==>
        Fetch(v.query, v.page, Displayed(r)) in Log(Initial, es + [SearchRun(reply)])
  {
    var v := Run(Initial, es);
    var s := es + [SearchRun(reply)];
    assert s[..|es|] == es;
    RunKeepsCacheSound(Initial, s, {});
    RunSplit(Initial, es, [SearchRun(reply)]);
    assert Run(v, [SearchRun(reply)]) == Search(v, reply);
    assert NonNegativePages(s) by {
      forall i | 0 <= i < |s| ensures s[i].PageChanged? ==> s[i].newPage >= 0 {
        if i < |es| { assert s[i] == es[i]; }
      }
    }
    var r := Search(v, reply);
    if !IsBlank(v.query) && Key(v.query, v.page) in r.cache {
      DisplayMatchesCache(v, reply);
      assert Run(Initial, s) == r;
      RunKeepsCacheSoundFromInitial(s);
      assert v.page >= 0 by { RunPagesNonNegative(Initial, es); }
    }
  }

  lemma RunKeepsCacheSoundFromInitial(es: seq<Event>)
    requires NonNegativePages(es)
    ensures CacheSound(Run(Initial, es).cache, Log(Initial, es))
  {
    RunKeepsCacheSound(Initial, es, {});
    assert {} + Log(Initial, es) == Log(Initial, es);
  }

  lemma {:induction false} RunPagesNonNegative(v: ViewState, es: seq<Event>)
    requires v.page >= 0 && NonNegativePages(es)
    ensures Run(v, es).page >= 0
    decreases |es|
  {
    if es != [] {
      assert NonNegativePages(es[1..]) by {
        forall i | 0 <= i < |es| - 1 ensures es[1..][i] == es[i + 1] { }
      }
      RunPagesNonNegative(Step(v, es[0]), es[1..]);
    }
  }

  /** A run of button clicks from a page of at least 1 only ever moves to pages of at least 1. */
  lemma {:induction false} ButtonRunStaysOnPositivePages(v: ViewState, es: seq<Event>)
    requires v.page >= 1 && ButtonRun(v, es)
    ensures NonNegativePages(es) && Run(v, es).page >= 1
    decreases |es|
  {
    if es != [] {
      var e := es[0];
      if e.PageChanged? {
        ButtonsStayOnPositivePages(v.page, v.totalPages);
      }
      ButtonRunStaysOnPositivePages(Step(v, e), es[1..]);
      assert forall i | 1 <= i < |es| :: es[i] == es[1..][i - 1];
    }
  }

  /** From the initial state, every run the pagination bar can produce has non-negative page changes. */
  lemma ButtonRunFromInitialIsNonNegative(es: seq<Event>)
    requires ButtonRun(Initial, es)
    ensures NonNegativePages(es)
  {
    ButtonRunStaysOnPositivePages(Initial, es);
  }

  /** Running two event sequences one after the other is running their concatenation. */
  lemma {:induction false} RunSplit(v: ViewState, xs: seq<Event>, ys: seq<Event>)
    ensures Run(v, xs + ys) == Run(Run(v, xs), ys)
    ensures Log(v, xs + ys) == Log(v, xs) + Log(Run(v, xs), ys)
    decreases |xs|
  {
    if xs == [] {
      assert xs + ys == ys;
    } else {
      assert (xs + ys)[0] == xs[0] && (xs + ys)[1..] == xs[1..] + ys;
      RunSplit(Step(v, xs[0]), xs[1..], ys);
    }
  }

  /** Running `e` then `es` takes one step and continues. */
  lemma RunCons(v: ViewState, e: Event, es: seq<Event>)
    ensures Run(v, [e] + es) == Run(Step(v, e), es)
    ensures Log(v, [e] + es) == Fetched(v, e) + Log(Step(v, e), es)
    ensures Requests(v, [e] + es) ==
              (match Requested(v, e) case None => [] case Some(req) => [req]) + Requests(Step(v, e), es)
  {
    assert ([e] + es)[0] == e && ([e] + es)[1..] == es;
  }

  /**
   * With a negative page the guarantee fails. A cache holding only the
   * answer for ("a-", 1) is sound, yet searching for query "a" at page
   * -1 hits that entry and displays an answer the client never gave for
   * ("a", -1).
   */
  lemma NegativePageShowsAnotherQuery(v: ViewState, reply: Outcome, result: ResultPage)
    requires v.query == "a" && v.page == -1 && v.cache == map[Key("a-", 1) := result]
    ensures CacheSound(v.cache, {Fetch("a-", 1, result)})
    ensures SearchRequest(v) == None
    ensures Displayed(Search(v, reply)) == result
    ensures Fetch(v.query, v.page, Displayed(Search(v, reply))) !in {Fetch("a-", 1, result)}
  {
    SingletonCacheSound(result);
    NegativePageHitsOtherEntry(v, reply, result);
  }

  /** A cache holding only the answer for ("a-", 1) is sound for a log holding that answer. */
  lemma SingletonCacheSound(result: ResultPage)
    ensures CacheSound(map[Key("a-", 1) := result], {Fetch("a-", 1, result)})
  {
    InsertKeepsCacheSound(map[], {}, "a-", 1, result);
    assert map[][Key("a-", 1) := result] == map[Key("a-", 1) := result];
    assert {} + {Fetch("a-", 1, result)} == {Fetch("a-", 1, result)};
  }

  /** Query "a" at page -1 is a hit on the entry stored under the key of ("a-", 1). */
  lemma NegativePageHitsOtherEntry(v: ViewState, reply: Outcome, result: ResultPage)
    requires v.query == "a" && v.page == -1 && v.cache == map[Key("a-", 1) := result]
    ensures SearchRequest(v) == None
    ensures Displayed(Search(v, reply)) == result
  {
    assert Key(v.query, v.page) in v.cache by { NegativePageKeysCollide(); }
    assert !IsBlank(v.query) by {
      BlankIffWhitespace(v.query);
      assert !IsJsWhitespace(v.query[0]);
    }
    CacheHitShowsEntry(v, reply);
  }

  /**
   * Typing "cat" and searching, with the client answering one question
   * on one page, shows that question with one page, and both the
   * Previous and the Next button are disabled.
   */
  lemma CatScenario()
    ensures var result := ResultPage([Question("1", "Cats?", "faq")], 1, 1);
      var es := [QueryChanged("cat"), SearchRun(Success(result))];
      var v := Run(Initial, es);
      && Requests(Initial, es) == [Request("cat", 1, PageSize)]
      && |v.questions| == 1 && v.totalResults == 1 && v.totalPages == 1
      && PreviousDisabled(v.page) && NextDisabled(v.page, v.totalPages)
      && Window(v.page, v.totalPages) == [1]
  {
    var result := ResultPage([Question("1", "Cats?", "faq")], 1, 1);
    var e0, e1 := QueryChanged("cat"), SearchRun(Success(result));
    assert TrimStart("cat") == "cat" && TrimEnd("cat") == "cat";
    var v1 := Step(Initial, e0);
    assert Requested(v1, e1) == Some(Request("cat", 1, PageSize));
    RunCons(v1, e1, []);
    RunCons(Initial, e0, [e1]);
    assert [e0] + [e1] == [e0, e1];
    assert WindowBounds(1, 1) == (1, 1);
  }
}
