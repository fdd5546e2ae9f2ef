/** The search controller `ArticleList` of src/App.tsx:12-95: five state cells
    (query, articles, loading, error, filters), the search transition `fetchArticles`
    split at its `await` into `Submit` and `Complete`, and the views derived from the
    state on every render. The search service is reduced to its outcome. */
module SearchController {
  import opened ArticleModel
  import opened IsoDay
  import opened ResultFilter
  import opened AuthorOptions
  import opened ArticleCard

  /** How the awaited `searchArticles(query)` settles: resolved with the response's
      documents, or rejected with an error whose message may be empty or missing (""). */
  datatype SearchOutcome = Found(docs: seq<Article>) | Failed(message: string)

  const FetchFailedMessage: string := "Failed to fetch articles"
  const FallbackErrorMessage: string := "Error fetching articles"

  /** Number of skeleton cards shown while a search is in flight. */
  const SkeletonCards: nat := 5

  /** `searchArticles` (src/services/nytService.ts:6-12) with the HTTP exchange as
      parameters: a non-2xx response rejects with the fixed message, otherwise the
      documents are returned untouched. */
  function SearchArticles(responseOk: bool, docs: seq<Article>): (r: SearchOutcome)
    ensures r.Failed? <==> !responseOk
    ensures r.Failed? ==> r.message == FetchFailedMessage
    ensures r.Found? ==> r.docs == docs
  {
    if !responseOk then Failed(FetchFailedMessage) else Found(docs)
  }

  /** `err.message || 'Error fetching articles'`. */
  function ErrorText(message: string): (r: string)
    ensures r != ""
    ensures message != "" ==> r == message
    ensures message == "" ==> r == FallbackErrorMessage
  {
    if message != "" then message else FallbackErrorMessage
  }

  class ArticleList {
    var query: string
    var articles: seq<Article>
    var loading: bool
    var error: string
    var filters: Filters

    /** While a search is in flight nothing from an earlier search is kept, and a
        stored error is never kept next to results. */
    ghost predicate Valid()
      reads this
    {
      && (loading ==> articles == [] && error == "")
      && (error != "" ==> articles == [])
    }

    /** The initial `useState` values (src/App.tsx:13-17). */
    constructor ()
      ensures Valid()
      ensures query == "" && articles == [] && !loading && error == "" && filters == NoFilters
    {
      query := "";
      articles := [];
      loading := false;
      error := "";
      filters := NoFilters;
    }

    /** The search box's `onChange`. */
    method SetQuery(q: string)
      requires Valid()
      modifies this`query
      ensures Valid() && query == q
    {
      query := q;
    }

    /** The filter panel's `onFilter`: replaces the filters and starts no search. */
    method SetFilters(f: Filters)
      requires Valid()
      modifies this`filters
      ensures Valid() && filters == f
    {
      filters := f;
    }

    /** `fetchArticles` up to its `await`: nothing happens for the empty query (a
        query of spaces is not empty); otherwise the search begins. */
    method Submit() returns (started: bool)
      requires Valid()
      modifies this`loading, this`error, this`articles
      ensures Valid()
      ensures started <==> query != ""
      ensures !started ==>
                articles == old(articles) && loading == old(loading) && error == old(error)
      ensures started ==> loading && error == "" && articles == []
    {
      if query == "" {
        return false;
      }
      loading := true;
      error := "";
      articles := [];
      started := true;
    }

    /** `fetchArticles` after its `await`: the `try`, `catch` and `finally` blocks. */
    method Complete(outcome: SearchOutcome)
      requires Valid() && loading
      modifies this`loading, this`error, this`articles
      ensures Valid() && !loading
      ensures outcome.Found? ==> articles == outcome.docs && error == ""
      ensures outcome.Failed? ==> articles == [] && error == ErrorText(outcome.message)
    {
      match outcome {
        case Found(docs) =>
          articles := docs;
        case Failed(message) =>
          error := ErrorText(message);
      }
      loading := false;
    }

    /** One whole `fetchArticles` call whose search settles with `outcome`. */
    method FetchArticles(outcome: SearchOutcome)
      requires Valid()
      modifies this`loading, this`error, this`articles
      ensures Valid()
      ensures query == "" ==>
                articles == old(articles) && loading == old(loading) && error == old(error)
      ensures query != "" && outcome.Found? ==>
                !loading && articles == outcome.docs && error == ""
      ensures query != "" && outcome.Failed? ==>
                !loading && articles == [] && error == ErrorText(outcome.message)
    {
      var started := Submit();
      if started {
        Complete(outcome);
      }
    }

    // -------------------------------------------------------------------------
    // Views derived on every render

    /** `filteredArticles`; `None` when the filter throws. */
    function Visible(day: DayOf): (r: Option<seq<Article>>)
      reads this
      ensures r.Some? ==> |r.value| <= |articles|
    {
      FilterArticles(articles, filters, day)
    }

    /** The author choices handed to the filter panel. */
    function Authors(): (r: seq<string>)
      reads this
      ensures NoDuplicates(r)
      ensures forall x :: x in r <==> x != "" && IsBylineOf(articles, x)
      ensures forall i, j :: 0 <= i < j < |r| ==>
                IsBylineOf(articles, r[i]) && IsBylineOf(articles, r[j]) &&
                FirstArticleWith(articles, r[i]) < FirstArticleWith(articles, r[j])
    {
      AuthorListCorrect(articles);
      AuthorList(articles)
    }

    /** The filter panel is mounted while there are results or a search is running;
        `None` when the render throws in the filter before the panel is built. */
    function ShowFilterPanel(day: DayOf): (r: Option<bool>)
      reads this
      ensures r.Some? <==> Visible(day).Some?
      ensures r == Some(true) <==> Visible(day).Some? && (articles != [] || loading)
    {
      match Visible(day)
      case None => None
      case Some(_) => Some(|articles| > 0 || loading)
    }

    /** The "No articles found" banner; `None` when the render throws in the filter. */
    function ShowNoArticlesBanner(day: DayOf): (r: Option<bool>)
      reads this
      ensures r.Some? <==> Visible(day).Some?
      ensures r == Some(true) <==> Visible(day) == Some([]) && !loading && error == ""
    {
      match Visible(day)
      case None => None
      case Some(v) => Some(|v| == 0 && !loading && error == "")
    }

    function Skeletons(): (n: nat)
      reads this
      ensures n > 0 <==> loading
      ensures loading ==> n == SkeletonCards
    {
      if loading then SkeletonCards else 0
    }

    /** The cards rendered: none while loading, else one per visible article in order. */
    function Cards(day: DayOf): (r: Option<seq<Card>>)
      reads this
      ensures r.Some? <==> Visible(day).Some?
      ensures r.Some? && loading ==> r.value == []
      ensures r.Some? && !loading ==>
                |r.value| == |Visible(day).value| &&
                forall i :: 0 <= i < |r.value| ==> r.value[i] == CardOf(Visible(day).value[i])
    {
      match Visible(day)
      case None => None
      case Some(v) => Some(if loading then [] else seq(|v|, i requires 0 <= i < |v| => CardOf(v[i])))
    }
  }

  // ---------------------------------------------------------------------------
  // Properties of the rendered state

  /** While a search is in flight the filter cannot throw (there is nothing to filter),
      no card and no banner is shown, and the filter panel stays mounted. */
  lemma LoadingView(c: ArticleList, day: DayOf)
    requires c.Valid() && c.loading
    ensures c.Visible(day) == Some([])
    ensures c.Cards(day) == Some([]) && c.ShowNoArticlesBanner(day) == Some(false)
    ensures c.ShowFilterPanel(day) == Some(true) && c.Skeletons() == SkeletonCards
  {
  }

  /** The stored error is never rendered itself; after a failed search nothing below
      the search form is rendered: no skeletons, no cards, no "No articles found"
      banner (the error's only visible effect) and no filter panel. */
  lemma ErrorHidesCards(c: ArticleList, day: DayOf)
    requires c.Valid() && c.error != ""
    ensures c.Skeletons() == 0
    ensures c.Cards(day) == Some([])
    ensures c.ShowNoArticlesBanner(day) == Some(false)
    ensures c.ShowFilterPanel(day) == Some(false)
  {
  }

  /** Once a search has settled, the render fails exactly when some fetched article
      forces a day conversion that throws; otherwise the filter panel is mounted exactly
      when the search found something, whatever the filters hide. */
  lemma {:induction false} SettledFilterPanel(c: ArticleList, day: DayOf)
    requires c.Valid() && !c.loading
    ensures c.ShowFilterPanel(day).None? <==>
              exists a :: a in c.articles && DateThrows(a, c.filters, day)
    ensures c.ShowFilterPanel(day).Some? ==> (c.ShowFilterPanel(day).value <==> c.articles != [])
  {
    FilterIsMatching(c.articles, c.filters, day);
  }

  /** With no filters set, a finished search shows one card per fetched article, in the
      service's order, and the banner exactly when the search found nothing. */
  lemma UnfilteredView(c: ArticleList, day: DayOf)
    requires c.Valid() && !c.loading && c.filters == NoFilters
    ensures c.Visible(day) == Some(c.articles)
    ensures c.Cards(day).Some? && |c.Cards(day).value| == |c.articles|
    ensures forall i :: 0 <= i < |c.articles| ==> c.Cards(day).value[i] == CardOf(c.articles[i])
    ensures c.ShowNoArticlesBanner(day) == Some(c.articles == [] && c.error == "")
  {
    NoFiltersIsIdentity(c.articles, day);
  }
}
