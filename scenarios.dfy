/** Worked examples: the fixture article of the repository's service mock
    (src/__mocks__/nytService.ts:6-15) pushed through the filter, the author list,
    the card and the controller. */
module Scenarios {
  import opened ArticleModel
  import opened IsoDay
  import opened ResultFilter
  import opened AuthorOptions
  import opened ArticleCard
  import opened SearchController

  function Fixture(): Article
  {
    Article(
      "test-article-id",
      Headline("Test Article"),
      Some(Byline(Some("By Test Author"))),
      "2025-07-19T00:00:00Z",
      Some("Test snippet"),
      None,
      "https://example.com/article")
  }

  function WithByline(a: Article, author: string): Article
  {
    a.(byline := Some(Byline(Some(author))))
  }

  /** The fixture alone: it is visible unfiltered, its byline is the one author choice,
      and its card shows its title, byline and snippet. */
  lemma FixtureScenario(day: DayOf)
    ensures FilterArticles([Fixture()], NoFilters, day) == Some([Fixture()])
    ensures AuthorList([Fixture()]) == ["By Test Author"]
    ensures CardOf(Fixture()) ==
              Card("https://example.com/article", "Test Article", "By Test Author", "Test snippet")
  {
    NoFiltersIsIdentity([Fixture()], day);
    FixtureBylines();
    var s := ["By Test Author"];
    assert s[..0] == [] && s[..|s| - 1] == [];
    assert InsertionOrder(s) == InsertionOrder([]) + s;
  }

  lemma FixtureBylines()
    ensures Bylines([Fixture()]) == ["By Test Author"]
  {
    var xs := [Fixture()];
    assert Original(xs[0]) == Some("By Test Author");
    assert xs[1..] == [];
    assert Bylines(xs) == ["By Test Author"] + Bylines([]);
  }

  /** Two articles by "A" and "B": the author filter "A" keeps only the first. */
  lemma AuthorScenario(day: DayOf)
    ensures FilterArticles([WithByline(Fixture(), "A"), WithByline(Fixture(), "B")],
                           Filters("A", ""), day)
            == Some([WithByline(Fixture(), "A")])
  {
    var a, b := WithByline(Fixture(), "A"), WithByline(Fixture(), "B");
    assert Original(a) == Some("A") && Original(b) == Some("B");
    assert Keep(a, Filters("A", ""), day) == Some(true);
    assert Keep(b, Filters("A", ""), day) == Some(false);
    assert [a, b][1..] == [b] && [b][1..] == [];
    assert FilterArticles([b], Filters("A", ""), day) == Some([]);
    assert FilterArticles([a, b], Filters("A", ""), day) == Some([a] + []);
    assert [a] + [] == [a];
  }

  /** A host conversion that is faithful on canonical timestamps keeps the fixture for
      the filter "2025-07-19" and drops it for "2025-07-20". */
  lemma DateScenario(day: DayOf)
    requires HonoursCanonical(day)
    ensures FilterArticles([Fixture()], Filters("", "2025-07-19"), day) == Some([Fixture()])
    ensures FilterArticles([Fixture()], Filters("", "2025-07-20"), day) == Some([])
  {
    var p := Fixture().pubDate;
    assert IsCanonicalUtc(p);
    assert p[..10] == "2025-07-19";
    assert day(p) == Some("2025-07-19");
    assert "2025-07-19" != "2025-07-20" by { assert "2025-07-19"[9] != "2025-07-20"[9]; }
    assert Keep(Fixture(), Filters("", "2025-07-19"), day) == Some(true);
    assert Keep(Fixture(), Filters("", "2025-07-20"), day) == Some(false);
    var xs := [Fixture()];
    assert xs[1..] == [] && [Fixture()] + [] == xs;
    assert FilterArticles(xs, Filters("", "2025-07-19"), day) == Some([Fixture()] + []);
  }

  /** The controller through an empty start, a search, a failed search and two
      submissions with an empty and a blank query. */
  method ControllerScenario(day: DayOf) returns (c: ArticleList)
    ensures c.Valid() && c.query == " " && c.loading && c.error == "" && c.articles == []
  {
    c := new ArticleList();
    assert c.ShowNoArticlesBanner(day) == Some(true) && c.ShowFilterPanel(day) == Some(false);

    c.SetQuery("test");
    var started := c.Submit();
    assert started;
    LoadingView(c, day);
    c.Complete(SearchArticles(true, [Fixture()]));
    UnfilteredView(c, day);
    assert c.Cards(day).value == [CardOf(Fixture())];
    FixtureScenario(day);
    assert c.Authors() == ["By Test Author"];

    c.SetQuery("error");
    started := c.Submit();
    c.Complete(SearchArticles(false, [Fixture()]));
    assert c.error == "Failed to fetch articles" && c.articles == [];
    ErrorHidesCards(c, day);

    c.SetQuery("");
    started := c.Submit();
    assert !started && c.error == "Failed to fetch articles" && !c.loading;

    c.SetQuery(" ");
    started := c.Submit();
    assert started && c.loading && c.error == "";
  }
}
