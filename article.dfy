/** The article record returned by the search service (src/types/article.ts).
    Optional TypeScript fields become `Option`s; `byline` and `byline.original`
    are both optional, so the author attribution is a nested option. */
module ArticleModel {

  datatype Option<+T> = None | Some(value: T)

  datatype Headline = Headline(main: string)

  datatype Byline = Byline(original: Option<string>)

  datatype Article = Article(
    id: string,
    headline: Headline,
    byline: Option<Byline>,
    pubDate: string,
    snippet: Option<string>,
    leadParagraph: Option<string>,
    webUrl: string
  )

  /** `article.byline?.original`: absent when either level is absent. */
  function Original(a: Article): (r: Option<string>)
    ensures r.Some? <==> a.byline.Some? && a.byline.value.original.Some?
    ensures r.Some? ==> r.value == a.byline.value.original.value
  {
    match a.byline
    case None => None
    case Some(b) => b.original
  }

  /** JavaScript truthiness of an optional string: present and not "". */
  predicate Truthy(o: Option<string>)
  {
    o.Some? && o.value != ""
  }
}
