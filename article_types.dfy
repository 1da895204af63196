/** The article records exchanged between the services and the front end. */
module ArticleTypes {
  import opened JsText

  /** A full article: markdown `content` plus the fields derived from it. */
  datatype Article = Article(
    id: String,
    title: String,
    slug: String,
    content: String,
    excerpt: String,
    createdAt: String,
    updatedAt: String)

  /** What the list view shows of an article: no `content` and no `updatedAt`. */
  datatype ArticleListItem = ArticleListItem(
    id: String,
    title: String,
    slug: String,
    excerpt: String,
    createdAt: String)
}
