/**
  `lib/services/article.service.ts`: the article list and the single-article read, both
  served from the fallback dataset. There is no state, so calling either twice gives the
  same answer; the functions here have no other inputs than their arguments.
 */
module ArticleService {
  import opened Wrappers
  import opened JsText
  import opened ArticleTypes
  import MockArticles

  /** The object literal built for each entry of the list. */
  function ToListItem(a: Article): ArticleListItem {
    ArticleListItem(a.id, a.title, a.slug, a.excerpt, a.createdAt)
  }

  /** Two articles have the same list item exactly when they agree on id, title, slug,
      excerpt and creation date: the item keeps those five and nothing of `content` or
      `updatedAt`. */
  lemma ListItemKeepsFive(a: Article, b: Article)
    ensures ToListItem(a) == ToListItem(b) <==>
              && a.id == b.id && a.title == b.title && a.slug == b.slug
              && a.excerpt == b.excerpt && a.createdAt == b.createdAt
  {
  }

  /** `articles.map(...)` with that projection: one item per article, in the same order. */
  function ListItems(articles: seq<Article>): (r: seq<ArticleListItem>)
    ensures |r| == |articles|
    ensures forall k :: 0 <= k < |r| ==> r[k] == ToListItem(articles[k])
  {
    if |articles| == 0 then []
    else [ToListItem(articles[0])] + ListItems(articles[1..])
  }

  /** The ids of a list of items, in order. */
  function ItemIds(items: seq<ArticleListItem>): (r: seq<String>)
    ensures |r| == |items| && forall k :: 0 <= k < |r| ==> r[k] == items[k].id
  {
    seq(|items|, k requires 0 <= k < |items| => items[k].id)
  }

  /** The list keeps the ids of the articles, in their order. */
  lemma ListItemsIds(articles: seq<Article>)
    ensures ItemIds(ListItems(articles)) == MockArticles.Ids(articles)
  {
  }

  /** `getArticles`: one item per dataset entry, in the dataset's order. */
  function GetArticles(): (r: seq<ArticleListItem>)
    ensures |r| == |MockArticles.GetMockArticles()|
    ensures forall k :: 0 <= k < |r| ==> r[k] == ToListItem(MockArticles.GetMockArticles()[k])
  {
    ListItems(MockArticles.GetMockArticles())
  }

  /** `getArticle(id)`: the dataset entry with that id, absent (`null`) exactly when `id` is
      none of the dataset's ids; an unknown id is not an error. */
  function GetArticle(id: String): (r: Option<Article>)
    ensures r.Some? ==> r.value.id == id && r.value in MockArticles.GetMockArticles()
    ensures r.None? <==> id !in MockArticles.MockIds
  {
    MockArticles.GetMockArticle(id)
  }

  /** With unique ids, the lookup of a listed id finds the article the item came from. */
  lemma ListedIdResolves(articles: seq<Article>, k: nat)
    requires MockArticles.UniqueIds(articles) && k < |articles|
    ensures MockArticles.FindById(articles, ListItems(articles)[k].id) == Some(articles[k])
  {
    MockArticles.FindOwnId(articles, k);
  }

  /** Every id in the list resolves, through `getArticle`, to the very entry it was listed
      from. */
  lemma ListedIdsResolve()
    ensures forall k :: 0 <= k < |GetArticles()| ==>
              GetArticle(GetArticles()[k].id) == Some(MockArticles.GetMockArticles()[k])
  {
    var t := MockArticles.GetMockArticles();
    MockArticles.MockIdsUnique();
    forall k | 0 <= k < |t|
      ensures MockArticles.FindById(t, ListItems(t)[k].id) == Some(t[k])
    {
      ListedIdResolves(t, k);
    }
  }
}
