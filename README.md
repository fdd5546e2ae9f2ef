# New York Times article search: search-and-filter core

This project models, in Dafny, the logic of the article-search page of a small
React client for the New York Times article-search API:

- the **result filter** (`filteredArticles`), an order-preserving filter by an optional
  author and an optional UTC calendar day;
- the **author choices** (`authorList`), the distinct non-empty bylines of the fetched
  articles in first-occurrence order;
- the **search controller** (`ArticleList`), whose five state cells (`query`, `articles`,
  `loading`, `error`, `filters`) are the fields of a class; `fetchArticles` is split at its
  `await` into `Submit` (the guard and the reset) and `Complete` (the `try`, `catch` and
  `finally` blocks); the rendered views are functions of the state;
- the **article card** texts: link target and title passed through, author label and
  description with their `||` fallbacks.

Files, one module each:

| file | module | source |
|---|---|---|
| `article.dfy` | `ArticleModel` | `src/types/article.ts` |
| `iso_day.dfy` | `IsoDay` | the day conversion at `src/App.tsx:29` |
| `result_filter.dfy` | `ResultFilter` | `src/App.tsx:25-33` |
| `author_list.dfy` | `AuthorOptions` | `src/App.tsx:20-22` |
| `article_card.dfy` | `ArticleCard` | `src/components/ArticleCard.tsx` |
| `search_controller.dfy` | `SearchController` | `src/App.tsx:12-95`, `src/services/nytService.ts` |
| `scenarios.dfy` | `Scenarios` | worked examples on the fixture of `src/__mocks__/nytService.ts` |

Behaviour the model keeps as the code has it:

- An article whose `pub_date` is the empty string is never removed by a date filter: the
  date check runs only when `pub_date` is truthy, so such an article fails open.
- The day conversion `new Date(pub_date).toISOString()` throws on an invalid date. The
  model takes the conversion as a parameter `day: string -> Option<string>`, where `None`
  is that exception, and the filter returns `None` when it would throw. The conversion runs
  whenever a date filter is set and `pub_date` is non-empty, even for an article the author
  check has already rejected. Only a valid `YYYY-MM-DDTHH:MM:SSZ` or
  `YYYY-MM-DDTHH:MM:SS.sssZ` timestamp has a fixed meaning (`HonoursCanonical`): its first
  ten characters.
- Only the empty query is ignored. A query of spaces starts a search, because the query is
  not trimmed.
- The status is the pair `loading` and `error`, not a separate status value. A failure
  stores `err.message`, or `Error fetching articles` when that message is empty. The
  component never renders the stored error: its only visible effect is to hide the
  "No articles found" banner, so after a failed search nothing below the search form is
  rendered. The
  service's own message `Failed to fetch articles` comes only from its non-2xx branch
  (`SearchArticles`). A network failure, a malformed body or a body without `response`
  rejects with the host's own error message instead; such a failure reaches `Complete` as
  `Failed(message)` without going through `SearchArticles`.
- A failing day conversion stops the whole render before any of the page is built, so the
  filter panel, the banner and the cards are all `None` together.

## Model

| member | source | states |
|---|---|---|
| `ArticleModel.Original` | src/App.tsx:21 | `byline?.original` is present exactly when both the byline and its `original` are present, and is then that string |
| `ResultFilter.Keep` | src/App.tsx:26-32 | the callback throws exactly when a date filter is set, `pub_date` is non-empty and the conversion fails; a kept article has the filtered byline and, when dated under a date filter, the filtered day |
| `ResultFilter.FilterArticles` | src/App.tsx:25-33 | the filtered list is no longer than the fetched list, and every visible article was fetched |
| `ResultFilter.KeepMeaning` | src/App.tsx:26-32 | the callback throws exactly when a date filter is set, `pub_date` is non-empty and the conversion fails; otherwise it keeps the article iff the author predicate and the date predicate both hold |
| `ResultFilter.FilterIsMatching` | src/App.tsx:25-33 | the filter throws iff some fetched article forces a failing conversion; otherwise it equals the declarative filter `MatchingArticles` |
| `ResultFilter.NoFiltersIsIdentity` | src/App.tsx:25-33 | with author and date both empty the filter returns the fetched list itself, same content and order |
| `ResultFilter.AuthorOnlyNeverThrows` | src/App.tsx:28-29 | with no date filter no conversion runs, so the filter never throws |
| `ResultFilter.FilterIsSubsequence` | src/App.tsx:25 | the visible list is an order-preserving subsequence of the fetched list |
| `ResultFilter.FilterMembers` | src/App.tsx:25-33 | an article is visible iff it was fetched and passes both predicates |
| `ResultFilter.AuthorFilterExact` | src/App.tsx:27 | under an author filter every visible article has exactly that byline, and every fetched article with that byline that passes the date check is visible |
| `ResultFilter.DateFilterFailsOpen` | src/App.tsx:28-30 | under a date filter every visible article with a `pub_date` is on that UTC day, and an article with an empty `pub_date` is never removed by the date check |
| `ResultFilter.FilterIdempotent` | src/App.tsx:25-33 | filtering the visible list again with the same filters returns it unchanged and cannot throw |
| `AuthorOptions.Bylines` | src/App.tsx:21 | the mapped and filtered bylines are no more than the articles and contain no empty string |
| `AuthorOptions.InsertionOrder` | src/App.tsx:20-22 | reading back a `Set` built from a list gives exactly the list's elements, no more of them than the list has |
| `AuthorOptions.AuthorList` | src/App.tsx:20-22 | the author list contains no empty string |
| `AuthorOptions.BylinesMembers` | src/App.tsx:21 | the mapped and filtered bylines are exactly the non-empty `byline.original` values of the articles |
| `AuthorOptions.InsertionOrderCorrect` | src/App.tsx:20-22 | building a `Set` from a list and reading it back gives the same elements, no duplicates, in first-occurrence order |
| `AuthorOptions.AuthorListCorrect` | src/App.tsx:20-22 | the author list has no duplicates, holds exactly the non-empty bylines of the articles, and lists them in the order their first articles appear |
| `AuthorOptions.AuthorListUnique` | src/App.tsx:20-22 | any duplicate-free list of the same bylines in first-occurrence order is the author list |
| `IsoDay.CanonicalDay` | src/App.tsx:29 | a witness, not the host conversion: it gives a day exactly for the valid canonical UTC timestamps, gives each its first ten characters (a valid `YYYY-MM-DD` date) and so shows that `HonoursCanonical` can be met; every other string, parseable or not, gives `None` |
| `ArticleCard.AuthorLabel` | src/components/ArticleCard.tsx:20 | the label is the byline when present and non-empty, else `Unknown Author`; never empty |
| `ArticleCard.Description` | src/components/ArticleCard.tsx:23 | snippet if non-empty, else lead paragraph if non-empty, else `No description available.`; never empty |
| `ArticleCard.CardOf` | src/components/ArticleCard.tsx:9-24 | the link target is exactly `web_url`, the title exactly `headline.main`, and neither text line is empty |
| `SearchController.SearchArticles` | src/services/nytService.ts:6-12 | a non-2xx response rejects with `Failed to fetch articles`; otherwise the documents come back untouched |
| `SearchController.ErrorText` | src/App.tsx:45 | the stored error is the error's message, or `Error fetching articles` when that is empty; never empty |
| `SearchController.ArticleList.constructor` | src/App.tsx:13-17 | empty query and results, not loading, no error, no filters |
| `SearchController.ArticleList.SetQuery` | src/App.tsx:61 | replaces the query and nothing else |
| `SearchController.ArticleList.SetFilters` | src/App.tsx:72 | replaces the filters and nothing else; no search starts |
| `SearchController.ArticleList.Submit` | src/App.tsx:37-40 | the empty query changes nothing; any other query, blank ones included, sets loading, clears the error and the results; query and filters untouched |
| `SearchController.ArticleList.Complete` | src/App.tsx:41-48 | success stores the documents with no error; failure stores the error text and keeps the results empty; both end not loading |
| `SearchController.ArticleList.FetchArticles` | src/App.tsx:35-49 | a whole search: unchanged for the empty query, else the state `Complete` leaves, with query and filters untouched and the state invariant kept |
| `SearchController.ArticleList.Visible` | src/App.tsx:25-33 | the rendered list is the filter of the current results by the current filters |
| `SearchController.ArticleList.Authors` | src/App.tsx:20-22 | the author choices of the current results: no duplicates, exactly their non-empty bylines, in the order their first articles appear |
| `SearchController.ArticleList.ShowFilterPanel` | src/App.tsx:71 | the panel is mounted iff the render does not throw and there are results or a search is running; `None` when the filter throws |
| `SearchController.ArticleList.ShowNoArticlesBanner` | src/App.tsx:75 | the banner shows iff the filtered list is empty, nothing is loading and there is no error |
| `SearchController.ArticleList.Skeletons` | src/App.tsx:78-84 | five placeholder cards while loading, none otherwise |
| `SearchController.ArticleList.Cards` | src/App.tsx:85-89 | no cards while loading; otherwise one card per visible article, in order |
| `SearchController.LoadingView` | src/App.tsx:71-89 | while loading the filter cannot throw, no card or banner shows, the filter panel is mounted and five skeletons show |
| `SearchController.ErrorHidesCards` | src/App.tsx:71-89 | after a failed search nothing below the search form is rendered: no skeletons, no cards, no banner and no filter panel; the stored error itself is never rendered |
| `SearchController.SettledFilterPanel` | src/App.tsx:25-71 | once a search has settled, the render fails iff some fetched article forces a failing day conversion; otherwise the panel is mounted iff the search found articles |
| `SearchController.UnfilteredView` | src/App.tsx:75-89 | with no filters a settled search shows one card per fetched article in order, and the banner iff it found nothing and there is no error |
| `Scenarios.FixtureScenario` | src/__mocks__/nytService.ts:6-15 | the fixture article is visible unfiltered, its byline is the only author choice, and its card shows its title, byline and snippet |
| `Scenarios.AuthorScenario` | src/App.tsx:27 | of two articles by `A` and `B`, the author filter `A` keeps only the first |
| `Scenarios.DateScenario` | src/App.tsx:28-30 | a timestamp of `2025-07-19T00:00:00Z` passes the date filter `2025-07-19` and fails `2025-07-20` |
| `Scenarios.ControllerScenario` | src/App.tsx:35-49 | from the initial state a search for `test` shows loading, then the fixture's card and author; a non-2xx search stores `Failed to fetch articles` with no results; the empty query then changes nothing, and a query of one space starts a new search |

## Left out

- The HTTP request, the JSON decoding and the API key of `src/services/nytService.ts` are
  left out. `SearchArticles` takes only the response's ok flag and its documents. Failures
  raised by `fetch`, by `res.json()` or by reading `data.response` are not derived; they
  enter the model only as a `Failed(message)` passed to `Complete`.
- A body whose `response` has no `docs` resolves the search with `undefined`. The source
  then stores `undefined` as the results and the next render throws at `articles.map`. The
  model has no value for that: `Found` always carries a list.
  `src/ArticleDetail.tsx` is not part of this model.
- The host's date handling (`new Date`, `toISOString`, `toLocaleString`) is a library
  call. The day conversion is the parameter `day`. The card's local-time date line is not
  modelled.
- Overlapping searches are left out. The code does not check whether a response is stale,
  so a late response could overwrite a newer one. Each search is one `Submit` followed by
  one `Complete`, and `Complete` requires `loading`.
- React's batching of state updates and re-render timing are left out, and so is
  `e.preventDefault()`. The model applies the updates in source order.
- The markup, routing and CSS are left out. `DarkModeToggle`, `BackToTopButton` and
  `SkeletonArticleCard` bind to DOM globals and styling. `NewsFilter` keeps its own draft
  author and date until its form is submitted; the model sees only the `onFilter` call
  (`SetFilters`).
- The uniqueness of `_id` is left out, because it only serves as a React list key.
- The test suites and mocks are left out. The component tests replace `App` with a mock
  that trims the query, unlike the real component.
