/** The client-side result filter `filteredArticles` of src/App.tsx:25-33: an
    order-preserving filter over the fetched articles by an optional author and an
    optional calendar day. */
module ResultFilter {
  import opened ArticleModel
  import opened IsoDay

  /** The filter panel's value; "" in either field means "no filter on that field". */
  datatype Filters = Filters(author: string, date: string)

  const NoFilters: Filters := Filters("", "")

  /** The filter callback for one article. Both checks run in turn, as in the source:
      the author check, then (whenever a date filter is set and `pubDate` is not "")
      the day conversion, even when the author check has already failed. `None` is
      the exception `toISOString` throws on an invalid date. */
  function Keep(a: Article, f: Filters, day: DayOf): (r: Option<bool>)
    ensures r.None? <==> f.date != "" && a.pubDate != "" && day(a.pubDate).None?
    ensures r == Some(true) ==> f.author == "" || Original(a) == Some(f.author)
    ensures r == Some(true) && f.date != "" && a.pubDate != "" ==> day(a.pubDate) == Some(f.date)
  {
    var authorOk := !(f.author != "" && Original(a) != Some(f.author));
    if f.date != "" && a.pubDate != "" then
      match day(a.pubDate)
      case None => None
      case Some(d) => Some(authorOk && d == f.date)
    else
      Some(authorOk)
  }

  /** `articles.filter(callback)`: visits the articles front to back; the first
      exception aborts the whole filter. */
  function FilterArticles(xs: seq<Article>, f: Filters, day: DayOf): (r: Option<seq<Article>>)
    ensures r.Some? ==> |r.value| <= |xs|
    ensures r.Some? ==> forall a :: a in r.value ==> a in xs
  {
    if xs == [] then Some([])
    else
      match Keep(xs[0], f, day)
      case None => None
      case Some(k) =>
        match FilterArticles(xs[1..], f, day)
        case None => None
        case Some(rest) => Some(if k then [xs[0]] + rest else rest)
  }

  // ---------------------------------------------------------------------------
  // Declarative meaning of the filter

  /** The author predicate: no author filter, or the byline is exactly that author. */
  predicate AuthorMatches(a: Article, f: Filters)
  {
    f.author == "" || Original(a) == Some(f.author)
  }

  /** The date predicate: no date filter, no publication date (fails open), or the
      article's UTC day is exactly the filter's day. */
  predicate DateMatches(a: Article, f: Filters, day: DayOf)
  {
    f.date == "" || a.pubDate == "" || day(a.pubDate) == Some(f.date)
  }

  /** The article forces the day conversion, and the conversion throws. */
  predicate DateThrows(a: Article, f: Filters, day: DayOf)
  {
    f.date != "" && a.pubDate != "" && day(a.pubDate).None?
  }

  /** `ys` is `xs` with some elements dropped and the rest in their original order. */
  predicate IsSubsequence(ys: seq<Article>, xs: seq<Article>)
    decreases |xs|
  {
    if ys == [] then true
    else if xs == [] then false
    else (ys[0] == xs[0] && IsSubsequence(ys[1..], xs[1..])) || IsSubsequence(ys, xs[1..])
  }

  /** The declarative filter, for comparison: keep exactly the matching articles. */
  function MatchingArticles(xs: seq<Article>, f: Filters, day: DayOf): (r: seq<Article>)
    ensures |r| <= |xs|
  {
    if xs == [] then []
    else if AuthorMatches(xs[0], f) && DateMatches(xs[0], f, day)
    then [xs[0]] + MatchingArticles(xs[1..], f, day)
    else MatchingArticles(xs[1..], f, day)
  }

  // ---------------------------------------------------------------------------
  // Properties

  /** The callback's verdict is the conjunction of the two predicates, and it throws
      exactly when the day conversion runs on an invalid date. */
  lemma KeepMeaning(a: Article, f: Filters, day: DayOf)
    ensures Keep(a, f, day).None? <==> DateThrows(a, f, day)
    ensures Keep(a, f, day).Some? ==>
              (Keep(a, f, day).value <==> AuthorMatches(a, f) && DateMatches(a, f, day))
  {
  }

  /** The filter fails exactly when some article forces a conversion that throws;
      otherwise it is the declarative filter. */
  lemma {:induction false} FilterIsMatching(xs: seq<Article>, f: Filters, day: DayOf)
    ensures FilterArticles(xs, f, day).None? <==> exists a :: a in xs && DateThrows(a, f, day)
    ensures FilterArticles(xs, f, day).Some? ==>
              FilterArticles(xs, f, day).value == MatchingArticles(xs, f, day)
  {
    if xs != [] {
      KeepMeaning(xs[0], f, day);
      FilterIsMatching(xs[1..], f, day);
      assert forall a :: a in xs <==> a == xs[0] || a in xs[1..];
    }
  }

  /** With no filters set the visible list is the fetched list, in content and order. */
  lemma {:induction false} NoFiltersIsIdentity(xs: seq<Article>, day: DayOf)
    ensures FilterArticles(xs, NoFilters, day) == Some(xs)
  {
    if xs != [] {
      NoFiltersIsIdentity(xs[1..], day);
      assert [xs[0]] + xs[1..] == xs;
    }
  }

  /** With only an author filter set no conversion runs, so the filter never throws. */
  lemma {:induction false} AuthorOnlyNeverThrows(xs: seq<Article>, author: string, day: DayOf)
    ensures FilterArticles(xs, Filters(author, ""), day).Some?
  {
    if xs != [] {
      AuthorOnlyNeverThrows(xs[1..], author, day);
    }
  }

  lemma {:induction false} MatchingIsSubsequence(xs: seq<Article>, f: Filters, day: DayOf)
    ensures IsSubsequence(MatchingArticles(xs, f, day), xs)
  {
    if xs != [] {
      MatchingIsSubsequence(xs[1..], f, day);
      var rest := MatchingArticles(xs[1..], f, day);
      if AuthorMatches(xs[0], f) && DateMatches(xs[0], f, day) {
        assert ([xs[0]] + rest)[1..] == rest;
      } else {
        SubsequenceOfTail(rest, xs);
      }
    }
  }

  lemma SubsequenceOfTail(ys: seq<Article>, xs: seq<Article>)
    requires xs != [] && IsSubsequence(ys, xs[1..])
    ensures IsSubsequence(ys, xs)
  {
  }

  /** The visible list is an order-preserving subsequence of the fetched list. */
  lemma {:induction false} FilterIsSubsequence(xs: seq<Article>, f: Filters, day: DayOf)
    requires FilterArticles(xs, f, day).Some?
    ensures IsSubsequence(FilterArticles(xs, f, day).value, xs)
  {
    FilterIsMatching(xs, f, day);
    MatchingIsSubsequence(xs, f, day);
  }

  lemma {:induction false} MatchingMembers(xs: seq<Article>, f: Filters, day: DayOf)
    ensures forall a :: a in MatchingArticles(xs, f, day) <==>
                        a in xs && AuthorMatches(a, f) && DateMatches(a, f, day)
  {
    if xs != [] {
      MatchingMembers(xs[1..], f, day);
      assert forall a :: a in xs <==> a == xs[0] || a in xs[1..];
    }
  }

  /** An article is visible iff it was fetched and passes both predicates. */
  lemma {:induction false} FilterMembers(xs: seq<Article>, f: Filters, day: DayOf, a: Article)
    requires FilterArticles(xs, f, day).Some?
    ensures a in FilterArticles(xs, f, day).value <==>
              a in xs && AuthorMatches(a, f) && DateMatches(a, f, day)
  {
    FilterIsMatching(xs, f, day);
    MatchingMembers(xs, f, day);
  }

  /** Under an author filter every visible article carries exactly that byline, and
      every fetched article with that byline that passes the date check is visible. */
  lemma {:induction false} AuthorFilterExact(xs: seq<Article>, f: Filters, day: DayOf)
    requires f.author != "" && FilterArticles(xs, f, day).Some?
    ensures forall a :: a in FilterArticles(xs, f, day).value ==> Original(a) == Some(f.author)
    ensures forall a :: a in xs && Original(a) == Some(f.author) && DateMatches(a, f, day) ==>
                        a in FilterArticles(xs, f, day).value
  {
    FilterIsMatching(xs, f, day);
    MatchingMembers(xs, f, day);
  }

  /** Under a date filter every visible article with a publication date is on that day,
      and an article without a publication date is never removed by the date check. */
  lemma {:induction false} DateFilterFailsOpen(xs: seq<Article>, f: Filters, day: DayOf)
    requires f.date != "" && FilterArticles(xs, f, day).Some?
    ensures forall a :: a in FilterArticles(xs, f, day).value && a.pubDate != "" ==>
                        day(a.pubDate) == Some(f.date)
    ensures forall a :: a in xs && a.pubDate == "" && AuthorMatches(a, f) ==>
                        a in FilterArticles(xs, f, day).value
  {
    FilterIsMatching(xs, f, day);
    MatchingMembers(xs, f, day);
  }

  lemma {:induction false} MatchingIdempotent(xs: seq<Article>, f: Filters, day: DayOf)
    ensures MatchingArticles(MatchingArticles(xs, f, day), f, day) == MatchingArticles(xs, f, day)
  {
    if xs != [] {
      MatchingIdempotent(xs[1..], f, day);
      var rest := MatchingArticles(xs[1..], f, day);
      if AuthorMatches(xs[0], f) && DateMatches(xs[0], f, day) {
        assert ([xs[0]] + rest)[1..] == rest;
      }
    }
  }

  /** Filtering the visible list again with the same filters changes nothing (and
      cannot throw, since every article that forced a conversion already passed it). */
  lemma {:induction false} FilterIdempotent(xs: seq<Article>, f: Filters, day: DayOf)
    requires FilterArticles(xs, f, day).Some?
    ensures FilterArticles(FilterArticles(xs, f, day).value, f, day) == FilterArticles(xs, f, day)
  {
    var ys := FilterArticles(xs, f, day).value;
    FilterIsMatching(xs, f, day);
    FilterIsMatching(ys, f, day);
    MatchingIdempotent(xs, f, day);
  }
}
