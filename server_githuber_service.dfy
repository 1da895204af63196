/**
  `server/src/githuber.service.ts`: the web server's view of the article service. It
  lists the articles, giving each an id derived from its file name, and reads one article
  by name, completing the `.md` extension. `fetch` is a parameter (a function from URL to
  the response), and so is the markdown renderer `processMarkdown`.
 */
module ServerGithuberService {
  import opened Wrappers
  import opened JsText

  /** `GITHUBER_SERVICE_URL`'s fallback. */
  const DefaultServiceUrl: String := "http://localhost:3001"

  const MdSuffix: String := ".md"
  const ListFailurePrefix: String := "Failed to fetch articles: "
  const ArticleFailurePrefix: String := "Failed to fetch article: "
  const FileKind: String := "file"

  /** `githuberBaseURL`: the configured service address, unless it is unset or empty. */
  function BaseUrl(env: Option<String>): (r: String)
    ensures Truthy(env) ==> r == env.value
    ensures !Truthy(env) ==> r == DefaultServiceUrl
    ensures |r| > 0
  {
    OrElse(env, DefaultServiceUrl)
  }

  /** One entry of the upstream JSON list, whose fields are not checked (`type` is
      `kind` here). */
  datatype RawItem = RawItem(name: Option<JsValue>, size: Option<JsValue>, kind: Option<JsValue>)

  /** The normalised entry `{ id, name, size, type }`. */
  datatype ListedArticle = ListedArticle(id: String, name: Option<JsValue>, size: Option<JsValue>, kind: Option<JsValue>)

  /** The response to the list request: `ok`, `statusText` and the parsed JSON array. */
  datatype ListResponse = ListResponse(ok: bool, statusText: String, items: seq<RawItem>)

  /** The response to an article request: `ok`, `statusText` and the body text. */
  datatype TextResponse = TextResponse(ok: bool, statusText: String, text: String)

  /** `{ id, name, content, html, size, type }` as `getArticle` returns it. */
  datatype ArticleContent = ArticleContent(id: String, name: String, content: String, html: String, size: nat, kind: String)

  /** The id of a listed entry: the name with its first `.md` removed when the name is a
      string, the empty string otherwise; the other three fields are copied. */
  function NormalizeItem(item: RawItem): (r: ListedArticle)
    ensures r.name == item.name && r.size == item.size && r.kind == item.kind
    ensures (item.name.None? || !item.name.value.JsString?) ==> r.id == []
    ensures item.name.Some? && item.name.value.JsString? ==>
              |r.id| <= |item.name.value.str| && (FreeOf(item.name.value.str, MdSuffix) ==> r.id == item.name.value.str)
    ensures item.name.Some? && item.name.value.JsString? ==> r.id == RemoveFirst(item.name.value.str, MdSuffix)
  {
    var id := if item.name.Some? && item.name.value.JsString? then RemoveFirst(item.name.value.str, MdSuffix) else [];
    ListedArticle(id, item.name, item.size, item.kind)
  }

  /** `items.map(...)`: one normalised entry per upstream entry, in the same order. */
  function NormalizeItems(items: seq<RawItem>): (r: seq<ListedArticle>)
    ensures |r| == |items|
    ensures forall k :: 0 <= k < |r| ==> r[k] == NormalizeItem(items[k])
  {
    seq(|items|, k requires 0 <= k < |items| => NormalizeItem(items[k]))
  }

  /** `getArticles`: a failed response is thrown as an error naming its status text and
      nothing is returned; otherwise the normalised list. */
  function GetArticles(baseUrl: String, fetch: String -> ListResponse): (r: Result<seq<ListedArticle>, String>)
    ensures var resp := fetch(baseUrl + "/articles");
            && (r.Err? <==> !resp.ok)
            && (r.Err? ==> r.error == ListFailurePrefix + resp.statusText)
            && (r.Ok? ==> |r.value| == |resp.items|
                          && forall k :: 0 <= k < |r.value| ==> r.value[k] == NormalizeItem(resp.items[k]))
  {
    var resp := fetch(baseUrl + "/articles");
    if !resp.ok then Err(ListFailurePrefix + resp.statusText)
    else Ok(NormalizeItems(resp.items))
  }

  /** The file `getArticle` asks for: the name itself when it already ends in `.md`, the
      name with `.md` appended otherwise. */
  function FileNameOf(name: String): (r: String)
    ensures EndsWith(r, MdSuffix)
    ensures EndsWith(name, MdSuffix) <==> r == name
    ensures |name| <= |r| <= |name| + |MdSuffix| && r[..|name|] == name
  {
    if EndsWith(name, MdSuffix) then name else name + MdSuffix
  }

  /** Completing the extension twice is completing it once. */
  lemma FileNameIdempotent(name: String)
    ensures FileNameOf(FileNameOf(name)) == FileNameOf(name)
  {
  }

  /** Asking for `x` and for `x.md` reads the same file, unless `x` already ends in `.md`. */
  lemma SameFileWithOrWithoutSuffix(name: String)
    requires !EndsWith(name, MdSuffix)
    ensures FileNameOf(name + MdSuffix) == FileNameOf(name)
  {
    var s := name + MdSuffix;
    assert s[|s| - |MdSuffix|..] == MdSuffix;
  }

  /** `getArticle(name)`: a failed response is thrown as an error naming its status text;
      otherwise the requested file's name, its id, the raw text, the rendered text, the
      text's length and the kind `file`. */
  function GetArticle(name: String, baseUrl: String, fetch: String -> TextResponse, render: String -> String): (r: Result<ArticleContent, String>)
    ensures var fileName := FileNameOf(name);
            var resp := fetch(baseUrl + "/articles/" + fileName);
            && (r.Err? <==> !resp.ok)
            && (r.Err? ==> r.error == ArticleFailurePrefix + resp.statusText)
            && (r.Ok? ==> && r.value.name == fileName && EndsWith(r.value.name, MdSuffix)
                          && r.value.id == RemoveFirst(fileName, MdSuffix)
                          && r.value.content == resp.text && r.value.html == render(resp.text)
                          && r.value.size == |resp.text| && r.value.kind == FileKind)
  {
    var fileName := FileNameOf(name);
    var resp := fetch(baseUrl + "/articles/" + fileName);
    if !resp.ok then Err(ArticleFailurePrefix + resp.statusText)
    else
      var content := resp.text;
      Ok(ArticleContent(RemoveFirst(fileName, MdSuffix), fileName, content, render(content), |content|, FileKind))
  }

  /** The id `getArticle` returns for a name free of `.md` is the name, whether or not
      the caller wrote the extension. */
  lemma {:induction false} ArticleIdOfPlainName(n: String, baseUrl: String, fetch: String -> TextResponse, render: String -> String)
    requires FreeOf(n, MdSuffix)
    ensures GetArticle(n, baseUrl, fetch, render).Ok? ==> GetArticle(n, baseUrl, fetch, render).value.id == n
    ensures GetArticle(n + MdSuffix, baseUrl, fetch, render) == GetArticle(n, baseUrl, fetch, render)
  {
    assert !EndsWith(n, MdSuffix) by {
      if EndsWith(n, MdSuffix) {
        assert OccursAt(n, MdSuffix, |n| - 3);
      }
    }
    RemoveFirstMd(n, []);
    assert n + MdSuffix + [] == n + MdSuffix;
    SameFileWithOrWithoutSuffix(n);
  }

  /** A listed `x.md` (with no other `.md` in it) gets the id `x`, and asking
      `getArticle` for that id requests exactly the listed file again. */
  lemma {:induction false} ListedIdRequestsListedFile(n: String, item: RawItem)
    requires FreeOf(n, MdSuffix) && item.name == Some(JsString(n + MdSuffix))
    ensures NormalizeItem(item).id == n
    ensures FileNameOf(NormalizeItem(item).id) == n + MdSuffix
  {
    RemoveFirstMd(n, []);
    assert n + MdSuffix + [] == n + MdSuffix;
    assert !EndsWith(n, MdSuffix) by {
      if EndsWith(n, MdSuffix) {
        assert OccursAt(n, MdSuffix, |n| - 3);
      }
    }
  }

  /** Only the first `.md` is removed, wherever it is: a name with an inner `.md` and no
      extension (`v1.md-notes`, say) is read from that name plus `.md` and gets the id
      without the inner one (`v1-notes.md`). */
  lemma {:induction false} EarlierMdWins(a: String, b: String)
    requires FreeOf(a, MdSuffix) && !EndsWith(a + MdSuffix + b, MdSuffix)
    ensures FileNameOf(a + MdSuffix + b) == a + MdSuffix + b + MdSuffix
    ensures RemoveFirst(FileNameOf(a + MdSuffix + b), MdSuffix) == a + b + MdSuffix
  {
    var n := a + MdSuffix + b;
    var c := b + MdSuffix;
    assert FileNameOf(n) == n + MdSuffix;
    assert n + MdSuffix == a + ".md" + c;
    RemoveFirstMd(a, c);
    assert a + c == a + b + MdSuffix;
  }
}
