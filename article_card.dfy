/** The text an article card shows (src/components/ArticleCard.tsx): the link target
    and the title pass through unchanged; the author label and the description fall
    back with JavaScript `||`, so an empty string counts as absent. */
module ArticleCard {
  import opened ArticleModel

  const UnknownAuthor: string := "Unknown Author"
  const NoDescription: string := "No description available."

  /** What one card shows. The local-time date line is left to the host. */
  datatype Card = Card(href: string, title: string, author: string, description: string)

  /** JavaScript `o || fallback` on an optional string. */
  function OrElse(o: Option<string>, fallback: string): string
  {
    if Truthy(o) then o.value else fallback
  }

  /** `article.byline?.original || 'Unknown Author'`. */
  function AuthorLabel(a: Article): (r: string)
    ensures r != ""
    ensures Truthy(Original(a)) ==> Original(a) == Some(r)
    ensures !Truthy(Original(a)) ==> r == UnknownAuthor
  {
    OrElse(Original(a), UnknownAuthor)
  }

  /** `article.snippet || article.lead_paragraph || 'No description available.'`. */
  function Description(a: Article): (r: string)
    ensures r != ""
    ensures Truthy(a.snippet) ==> a.snippet == Some(r)
    ensures !Truthy(a.snippet) && Truthy(a.leadParagraph) ==> a.leadParagraph == Some(r)
    ensures !Truthy(a.snippet) && !Truthy(a.leadParagraph) ==> r == NoDescription
  {
    OrElse(a.snippet, OrElse(a.leadParagraph, NoDescription))
  }

  function CardOf(a: Article): (c: Card)
    ensures c.href == a.webUrl && c.title == a.headline.main
    ensures c.author != "" && c.description != ""
  {
    Card(a.webUrl, a.headline.main, AuthorLabel(a), Description(a))
  }
}
