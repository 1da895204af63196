/**
  The newer repository-host client, `lib/services/github.service.ts`. The upstream API is
  a function from a path to what the API answers for it (a payload, or the value it
  throws); base64 decoding is a function parameter; clock readings are parameters.
 */
module LibGitHubService {
  import opened Wrappers
  import opened JsText
  import opened GitHubTypes
  import opened ArticleTypes
  import opened ArticleExtraction

  /** A value caught by `handleError`: one of the client's own errors, or anything else.
      For anything else, `parsed` is what the error-response schema accepts of it (absent
      when the schema rejects it), `message` and `status` are its fields of those names. */
  datatype Thrown =
    | ApiError(error: GitHubApiError)
    | Foreign(parsed: Option<ErrorResponse>, message: Option<JsValue>, status: Option<JsValue>)

  /** The upstream API: what a content request for a path returns or throws. */
  type Upstream = String -> Result<ContentPayload, Thrown>

  const UnknownError: String := "Unknown GitHub API error"

  /** `handleError`: an error of the client passes through unchanged; otherwise the
      message defaults when missing or empty, and the status is kept as it was when the
      schema accepted the value, and only when it is a number otherwise. */
  function HandleError(t: Thrown): (r: GitHubApiError)
    ensures t.ApiError? ==> r == t.error
    ensures t.Foreign? ==> r.message != []
    ensures t.Foreign? && t.parsed.Some? ==>
              && r.response == t.parsed
              && r.status == t.status
              && r.message == OrElse(t.parsed.value.message, UnknownError)
    ensures t.Foreign? && t.parsed.None? ==>
              && r.response.None?
              && (r.status.Some? ==> r.status.value.JsNumber? && r.status == t.status)
              && (t.status.Some? && t.status.value.JsNumber? ==> r.status == t.status)
              && (r.message != UnknownError ==> t.message == Some(JsString(r.message)))
    ensures t.Foreign? && t.parsed.None? && t.message.Some? && t.message.value.JsString? && t.message.value.str != [] ==>
              r.message == t.message.value.str
  {
    match t
    case ApiError(e) => e
    case Foreign(Some(data), _, status) =>
      GitHubApiError(OrElse(data.message, UnknownError), status, Some(data))
    case Foreign(None, message, status) =>
      var text := if message.Some? && message.value.JsString? && message.value.str != [] then message.value.str else UnknownError;
      var number := if status.Some? && status.value.JsNumber? then status else None;
      GitHubApiError(text, number, None)
  }

  /** Normalising twice is normalising once. */
  lemma HandleErrorIdempotent(t: Thrown)
    ensures HandleError(ApiError(HandleError(t))) == HandleError(t)
  {
  }

  /** `getContent` without its bookkeeping: the entries of the answer for `path` (one
      object becomes a one-element list), or the normalised error. */
  function ContentOf(answer: Result<ContentPayload, Thrown>): (r: Result<seq<GitHubContent>, GitHubApiError>)
    ensures answer.Ok? ==> r.Ok? && r.value == PayloadEntries(answer.value)
    ensures answer.Ok? && answer.value.Single? ==> r.value == [answer.value.entry]
    ensures answer.Err? ==> r == Err(HandleError(answer.error))
  {
    match answer
    case Ok(p) => Ok(PayloadEntries(p))
    case Err(t) => Err(HandleError(t))
  }

  /** The message `getFileContent` throws for a path that is no usable file. */
  function NotAFileMessage(path: String): String {
    "Path " + path + " is not a file or content is not available"
  }

  /** An entry `getFileContent` can read: a file whose content is present and not empty. */
  predicate IsReadableFile(entries: seq<GitHubContent>) {
    |entries| > 0 && entries[0].kind == "file" && Truthy(entries[0].content)
  }

  /** The checks of `getFileContent` on the first entry, then base64 decoding when the
      entry says so. */
  function FileContentOf(path: String, entries: seq<GitHubContent>, decode: String -> String): (r: Result<String, GitHubApiError>)
    ensures r.Err? <==> !IsReadableFile(entries)
    ensures r.Err? ==> r.error == GitHubApiError(NotAFileMessage(path), None, None)
    ensures r.Ok? && entries[0].encoding == Some("base64") ==> r.value == decode(entries[0].content.value)
    ensures r.Ok? && entries[0].encoding != Some("base64") ==> r.value == entries[0].content.value
  {
    if !IsReadableFile(entries) then Err(GitHubApiError(NotAFileMessage(path), None, None))
    else if entries[0].encoding == Some("base64") then Ok(decode(entries[0].content.value))
    else Ok(entries[0].content.value)
  }

  /** `getFileContent(path)` on the answer for `path`: errors of the content request
      arrive normalised, the file checks throw their own error. */
  function FetchFile(path: String, answer: Result<ContentPayload, Thrown>, decode: String -> String): (r: Result<String, GitHubApiError>)
    ensures answer.Err? ==> r == Err(HandleError(answer.error))
    ensures answer.Ok? ==> r == FileContentOf(path, PayloadEntries(answer.value), decode)
  {
    match ContentOf(answer)
    case Err(e) => Err(e)
    case Ok(entries) => FileContentOf(path, entries, decode)
  }

  /** A directory returned as the answer for a file path is rejected. */
  lemma DirectoryIsNotAFile(path: String, dir: GitHubContent, decode: String -> String)
    requires dir.kind == "dir"
    ensures FetchFile(path, Ok(Single(dir)), decode) == Err(GitHubApiError(NotAFileMessage(path), None, None))
  {
  }

  // ----- listArticles / getArticle -----

  /** The filter of `listArticles`: a file whose name ends in `.md`. */
  predicate IsMarkdownFile(item: GitHubContent) {
    item.kind == "file" && EndsWith(item.name, ".md")
  }

  /** `contents.filter(...)`: the markdown files, in listing order. */
  function MarkdownFiles(entries: seq<GitHubContent>): (r: seq<GitHubContent>)
    ensures |r| <= |entries|
    ensures forall k :: 0 <= k < |r| ==> IsMarkdownFile(r[k])
    ensures forall item :: item in r <==> item in entries && IsMarkdownFile(item)
    decreases |entries|
  {
    if entries == [] then []
    else (if IsMarkdownFile(entries[0]) then [entries[0]] else []) + MarkdownFiles(entries[1..])
  }

  /** Filtering keeps the listing order: the files of a concatenation are the files of
      the first part followed by those of the second. */
  lemma {:induction false} MarkdownFilesAppend(a: seq<GitHubContent>, b: seq<GitHubContent>)
    ensures MarkdownFiles(a + b) == MarkdownFiles(a) + MarkdownFiles(b)
    decreases |a|
  {
    if a == [] {
      assert a + b == b;
    } else {
      assert (a + b)[1..] == a[1..] + b;
      MarkdownFilesAppend(a[1..], b);
    }
  }

  /** `file.name.replace('.md', '')`: the first `.md` removed, wherever it occurs. */
  function ArticleId(name: String): String {
    RemoveFirst(name, ".md")
  }

  /** A name without `.md` is its own id; otherwise the id is three characters shorter. */
  lemma ArticleIdLength(name: String)
    ensures !Contains(name, ".md") ==> ArticleId(name) == name
    ensures Contains(name, ".md") ==> |ArticleId(name)| == |name| - 3
  {
    ContainsIff(name, ".md");
    if Contains(name, ".md") {
      var k := IndexOfFrom(name, ".md", 0).value;
      assert ArticleId(name) == name[..k] + name[k + 3..];
    }
  }

  /** The id of a name made of a stem and `.md`, where no earlier `.md` occurs, is the stem. */
  lemma ArticleIdOfStem(stem: String)
    requires forall j :: 0 <= j < |stem| ==> !OccursAt(stem + ".md", ".md", j)
    ensures ArticleId(stem + ".md") == stem
  {
    var name := stem + ".md";
    assert OccursAt(name, ".md", |stem|);
    assert name[..|stem|] == stem;
  }

  /** The first `.md` is removed even when it is not the extension: a name `a.md` + `b`
      with no `.md` in `a` gets the id `a` + `b` (`my.mdx.md` is listed as `myx.md`). */
  lemma ArticleIdLosesName(a: String, b: String)
    requires FreeOf(a, ".md")
    ensures ArticleId(a + ".md" + b) == a + b
  {
    RemoveFirstMd(a, b);
  }

  /** So the id of a listed article does not always lead `getArticle` back to its file:
      for `a.md` + `b` with `b` not starting with `.`, it reads `a` + `b` + `.md` instead
      (`myx.md.md` for `my.mdx.md`). */
  lemma ListedIdMissesFile(folder: String, a: String, b: String)
    requires FreeOf(a, ".md") && b != [] && b[0] != '.'
    ensures ArticlePath(folder, ArticleId(a + ".md" + b)) != folder + "/" + (a + ".md" + b)
  {
    ArticleIdLosesName(a, b);
    var path := ArticlePath(folder, a + b);
    var file := folder + "/" + (a + ".md" + b);
    var k := |folder| + 1 + |a|;
    assert path[k] == b[0] by {
      assert path == folder + "/" + a + b + ".md";
    }
    assert file[k] == '.';
  }

  /** The file `getArticle` reads for an id: `${folder}/${id}.md`. */
  function ArticlePath(folder: String, id: String): (r: String)
    ensures |r| == |folder| + |id| + 4
    ensures EndsWith(r, ".md") && r[..|folder|] == folder && r[|folder|] == '/'
    ensures r[|folder| + 1..|r| - 3] == id
  {
    folder + "/" + id + ".md"
  }

  /** What `getFileContent` yields for each listed file, in listing order. */
  function FileTexts(files: seq<GitHubContent>, upstream: Upstream, decode: String -> String): (r: seq<Result<String, GitHubApiError>>)
    ensures |r| == |files|
    ensures forall k :: 0 <= k < |files| ==> r[k] == FetchFile(files[k].path, upstream(files[k].path), decode)
  {
    seq(|files|, k requires 0 <= k < |files| => FetchFile(files[k].path, upstream(files[k].path), decode))
  }

  /** The article built for a listed file from its text. */
  function ArticleOf(file: GitHubContent, text: String, createdAt: String, updatedAt: String): (a: Article)
    ensures a.id == ArticleId(file.name) && a.slug == a.id && a.content == text
  {
    ExtractArticle(ArticleId(file.name), text, createdAt, updatedAt)
  }

  /** The timestamps `listArticles` gives its articles: each article reads the clock
      twice on its own, so the `k`-th listed file gets `createdAt(k)` and `updatedAt(k)`. */
  type Stamps = nat -> String

  /** How `listArticles` builds the article of the `k`-th listed file. */
  function Builder(createdAt: Stamps, updatedAt: Stamps): (nat, GitHubContent, String) -> Article {
    (k: nat, file: GitHubContent, text: String) => ArticleOf(file, text, createdAt(k), updatedAt(k))
  }

  /** The articles built from the listed files and their texts, or the error of the
      first file in listing order whose text could not be read. */
  function CollectArticles(files: seq<GitHubContent>, texts: seq<Result<String, GitHubApiError>>, build: (nat, GitHubContent, String) -> Article): Result<seq<Article>, GitHubApiError>
    requires |texts| == |files|
    decreases |files|
  {
    if files == [] then Ok([])
    else
      var n := |files| - 1;
      match CollectArticles(files[..n], texts[..n], build)
      case Err(e) => Err(e)
      case Ok(done) =>
        match texts[n]
        case Err(e) => Err(e)
        case Ok(text) => Ok(done + [build(n, files[n], text)])
  }

  /** One more file: its article is appended, or the first error stays. */
  lemma CollectArticlesStep(files: seq<GitHubContent>, texts: seq<Result<String, GitHubApiError>>, build: (nat, GitHubContent, String) -> Article, i: nat)
    requires |texts| == |files| && i < |files|
    ensures var before := CollectArticles(files[..i], texts[..i], build);
            var after := CollectArticles(files[..i + 1], texts[..i + 1], build);
            && (before.Err? ==> after == before)
            && (before.Ok? && texts[i].Err? ==> after == Err(texts[i].error))
            && (before.Ok? && texts[i].Ok? ==> after == Ok(before.value + [build(i, files[i], texts[i].value)]))
  {
    assert files[..i + 1][..i] == files[..i] && texts[..i + 1][..i] == texts[..i];
  }

  /** The first text that could not be read. */
  function FirstFailure(texts: seq<Result<String, GitHubApiError>>): (r: Option<nat>)
    ensures r.Some? ==> r.value < |texts| && texts[r.value].Err?
    ensures r.Some? ==> forall j :: 0 <= j < r.value ==> texts[j].Ok?
    ensures r.None? ==> forall k :: 0 <= k < |texts| ==> texts[k].Ok?
    decreases |texts|
  {
    if texts == [] then None
    else if texts[0].Err? then Some(0)
    else
      match FirstFailure(texts[1..])
      case None => None
      case Some(k) => Some(k + 1)
  }

  /** The first failure is determined by its two defining properties. */
  lemma FirstFailureUnique(texts: seq<Result<String, GitHubApiError>>, k: nat)
    requires k < |texts| && texts[k].Err?
    requires forall j :: 0 <= j < k ==> texts[j].Ok?
    ensures FirstFailure(texts) == Some(k)
  {
  }

  /** All texts read: one article per file, in order, built from that file's text. */
  lemma {:induction false} CollectArticlesOk(files: seq<GitHubContent>, texts: seq<Result<String, GitHubApiError>>, build: (nat, GitHubContent, String) -> Article)
    requires |texts| == |files|
    requires forall k :: 0 <= k < |texts| ==> texts[k].Ok?
    ensures var r := CollectArticles(files, texts, build);
            && r.Ok? && |r.value| == |files|
            && forall k :: 0 <= k < |files| ==> r.value[k] == build(k, files[k], texts[k].value)
    decreases |files|
  {
    if files != [] {
      var n := |files| - 1;
      assert forall k :: 0 <= k < n ==> files[..n][k] == files[k] && texts[..n][k] == texts[k];
      CollectArticlesOk(files[..n], texts[..n], build);
    }
  }

  /** Some text not read: no list at all, and the error is that of the first failing
      file in listing order. */
  lemma {:induction false} CollectArticlesErr(files: seq<GitHubContent>, texts: seq<Result<String, GitHubApiError>>, build: (nat, GitHubContent, String) -> Article)
    requires |texts| == |files|
    requires FirstFailure(texts).Some?
    ensures CollectArticles(files, texts, build) == Err(texts[FirstFailure(texts).value].error)
    decreases |files|
  {
    var k := FirstFailure(texts).value;
    var n := |files| - 1;
    assert forall j :: 0 <= j < n ==> files[..n][j] == files[j] && texts[..n][j] == texts[j];
    if k < n {
      FirstFailureUnique(texts[..n], k);
      CollectArticlesErr(files[..n], texts[..n], build);
    } else {
      CollectArticlesOk(files[..n], texts[..n], build);
    }
  }

  /** `listArticles`: the listing of `folder`, its markdown files, and their articles. */
  function ListArticlesSpec(folder: String, upstream: Upstream, decode: String -> String, createdAt: Stamps, updatedAt: Stamps): Result<seq<Article>, GitHubApiError> {
    match ContentOf(upstream(folder))
    case Err(e) => Err(e)
    case Ok(entries) =>
      var files := MarkdownFiles(entries);
      CollectArticles(files, FileTexts(files, upstream, decode), Builder(createdAt, updatedAt))
  }

  /** The markdown files of a listing that was read. */
  function ListedFiles(folder: String, upstream: Upstream): seq<GitHubContent>
    requires upstream(folder).Ok?
  {
    MarkdownFiles(PayloadEntries(upstream(folder).value))
  }

  /** What `listArticles` returns once the listing is read. When every markdown file in
      it is read: one article per markdown file, in listing order, its id derived from
      the file name, `slug == id`, its content the file's text. When a file is not read:
      the error of the first such file, and no list at all. */
  lemma ListArticlesMeaning(folder: String, upstream: Upstream, decode: String -> String, createdAt: Stamps, updatedAt: Stamps)
    requires upstream(folder).Ok?
    ensures var texts := FileTexts(ListedFiles(folder, upstream), upstream, decode);
            ListArticlesSpec(folder, upstream, decode, createdAt, updatedAt).Ok? <==> FirstFailure(texts).None?
    ensures var texts := FileTexts(ListedFiles(folder, upstream), upstream, decode);
            var r := ListArticlesSpec(folder, upstream, decode, createdAt, updatedAt);
            r.Err? ==> FirstFailure(texts).Some? && r.error == texts[FirstFailure(texts).value].error
    ensures var files := ListedFiles(folder, upstream);
            var texts := FileTexts(files, upstream, decode);
            var r := ListArticlesSpec(folder, upstream, decode, createdAt, updatedAt);
            r.Ok? ==>
              && |r.value| == |files|
              && forall k :: 0 <= k < |files| ==>
                   && r.value[k].id == ArticleId(files[k].name) && r.value[k].slug == r.value[k].id
                   && r.value[k].content == texts[k].value
                   && r.value[k].title == Title(texts[k].value, r.value[k].id)
                   && |r.value[k].excerpt| <= ExcerptLimit
                   && r.value[k].createdAt == createdAt(k) && r.value[k].updatedAt == updatedAt(k)
  {
    var files := ListedFiles(folder, upstream);
    var texts := FileTexts(files, upstream, decode);
    var build := Builder(createdAt, updatedAt);
    assert ListArticlesSpec(folder, upstream, decode, createdAt, updatedAt) == CollectArticles(files, texts, build);
    if FirstFailure(texts).Some? {
      CollectArticlesErr(files, texts, build);
    } else {
      CollectArticlesOk(files, texts, build);
      forall k | 0 <= k < |files|
        ensures var a := build(k, files[k], texts[k].value);
                && a.id == ArticleId(files[k].name) && a.slug == a.id && a.content == texts[k].value
                && a.title == Title(texts[k].value, a.id) && |a.excerpt| <= ExcerptLimit
                && a.createdAt == createdAt(k) && a.updatedAt == updatedAt(k)
      {
        var a := build(k, files[k], texts[k].value);
        assert a == ExtractArticle(ArticleId(files[k].name), texts[k].value, createdAt(k), updatedAt(k));
      }
    }
  }

  /** `getArticle`: the article read from `${folder}/${id}.md`, keeping the given id. */
  function GetArticleSpec(folder: String, id: String, upstream: Upstream, decode: String -> String, createdAt: String, updatedAt: String): (r: Result<Article, GitHubApiError>)
    ensures var text := FetchFile(ArticlePath(folder, id), upstream(ArticlePath(folder, id)), decode);
            && (r.Ok? <==> text.Ok?)
            && (r.Err? ==> r.error == text.error)
            && (r.Ok? ==> r.value.id == id && r.value.slug == id && r.value.content == text.value
                          && r.value.title == Title(text.value, id) && |r.value.excerpt| <= ExcerptLimit)
  {
    var path := ArticlePath(folder, id);
    match FetchFile(path, upstream(path), decode)
    case Err(e) => Err(HandleError(ApiError(e)))
    case Ok(text) => Ok(ExtractArticle(id, text, createdAt, updatedAt))
  }

  // ----- the request counter -----

  /** The counter's state: requests in the current window and when the window opened. */
  datatype Window = Window(count: int, lastReset: int)

  const WindowLength: int := 60000

  /** `trackRequest` at time `now`: a new window opens after more than a minute, then
      the request is counted. */
  function AfterRequest(w: Window, now: int): (r: Window)
    ensures now - w.lastReset > WindowLength ==> r == Window(1, now)
    ensures now - w.lastReset <= WindowLength ==> r == Window(w.count + 1, w.lastReset)
    ensures w.count >= 0 ==> r.count >= 1
  {
    var w' := if now - w.lastReset > WindowLength then Window(0, now) else w;
    w'.(count := w'.count + 1)
  }

  /** The readings of `Date.now()` during one call: the `k`-th tracked request reads
      `clock(k)`. */
  type Clock = nat -> int

  /** The readings after the first one. */
  function Later(clock: Clock): Clock {
    (k: nat) => clock(k + 1)
  }

  /** The same reading every time. */
  function Constant(now: int): Clock {
    k => now
  }

  /** `n` requests tracked in turn, the `k`-th at time `clock(k)`. */
  function AfterRequests(w: Window, clock: Clock, n: nat): Window
    decreases n
  {
    if n == 0 then w else AfterRequest(AfterRequests(w, clock, n - 1), clock(n - 1))
  }

  /** Tracking one request and then `n` more is tracking `1 + n`. */
  lemma {:induction false} AfterRequestsAdd(w: Window, clock: Clock, n: nat)
    ensures AfterRequests(AfterRequest(w, clock(0)), Later(clock), n) == AfterRequests(w, clock, 1 + n)
    decreases n
  {
    if n > 0 {
      AfterRequestsAdd(w, clock, n - 1);
      assert Later(clock)(n - 1) == clock(n);
    }
  }

  /** The count is always the number of requests in the current window: either no
      window opened and the count rose by `n`, or the last one opened at the `k`-th
      request and the `n - k` requests from there on are counted. */
  lemma {:induction false} AfterRequestsSinceReset(w: Window, clock: Clock, n: nat)
    ensures var r := AfterRequests(w, clock, n);
            || r == Window(w.count + n, w.lastReset)
            || exists k :: 0 <= k < n && r == Window(n - k, clock(k))
    decreases n
  {
    if n > 0 {
      AfterRequestsSinceReset(w, clock, n - 1);
      var p := AfterRequests(w, clock, n - 1);
      if clock(n - 1) - p.lastReset > WindowLength {
        assert AfterRequests(w, clock, n) == Window(n - (n - 1), clock(n - 1));
      } else if p != Window(w.count + n - 1, w.lastReset) {
        var k :| 0 <= k < n - 1 && p == Window(n - 1 - k, clock(k));
        assert AfterRequests(w, clock, n) == Window(n - k, clock(k));
      }
    }
  }

  /** With a clock that never goes back, requests up to a minute after the window
      opened all fall into it: nothing resets and the count rises by `n`. */
  lemma {:induction false} WithinWindow(w: Window, clock: Clock, n: nat)
    requires forall j, k :: 0 <= j <= k < n ==> clock(j) <= clock(k)
    requires n >= 1 ==> clock(n - 1) - w.lastReset <= WindowLength
    ensures AfterRequests(w, clock, n) == Window(w.count + n, w.lastReset)
    decreases n
  {
    if n > 0 {
      if n > 1 {
        assert clock(n - 2) <= clock(n - 1);
      }
      WithinWindow(w, clock, n - 1);
    }
  }

  /** The counter after a burst of `n >= 1` requests at time `now`. */
  function Burst(w: Window, now: int, n: nat): Window {
    if now - w.lastReset > WindowLength then Window(n, now) else Window(w.count + n, w.lastReset)
  }

  /** Within one reading of the clock at most one window opens: `n` requests leave the
      count at `n` in a fresh window, or raised by `n` in the current one. */
  lemma {:induction false} AfterRequestsAtOnce(w: Window, now: int, n: nat)
    requires n >= 1
    ensures AfterRequests(w, Constant(now), n) == Burst(w, now, n)
    ensures now - w.lastReset > WindowLength ==> AfterRequests(w, Constant(now), n) == Window(n, now)
    ensures now - w.lastReset <= WindowLength ==> AfterRequests(w, Constant(now), n) == Window(w.count + n, w.lastReset)
    decreases n
  {
    if n > 1 {
      AfterRequestsAtOnce(w, now, n - 1);
    }
  }

  class GitHubService {
    var requestCount: int
    var lastResetTime: int

    predicate Valid()
      reads this
    {
      requestCount >= 0
    }

    function Counter(): Window
      reads this
    {
      Window(requestCount, lastResetTime)
    }

    /** A new client: nothing counted, the window opening at construction time. */
    constructor(now: int)
      ensures Valid() && Counter() == Window(0, now)
    {
      requestCount := 0;
      lastResetTime := now;
    }

    /** `trackRequest`. */
    method TrackRequest(now: int)
      requires Valid()
      modifies this
      ensures Valid() && requestCount >= 1
      ensures Counter() == AfterRequest(old(Counter()), now)
    {
      var timeSinceReset := now - lastResetTime;
      if timeSinceReset > WindowLength {
        requestCount := 0;
        lastResetTime := now;
      }
      requestCount := requestCount + 1;
    }

    /** `getContent(path)`: one request, then the entries or the normalised error. */
    method GetContent(path: String, upstream: Upstream, now: int) returns (r: Result<seq<GitHubContent>, GitHubApiError>)
      requires Valid()
      modifies this
      ensures Valid()
      ensures Counter() == AfterRequest(old(Counter()), now)
      ensures r == ContentOf(upstream(path))
    {
      TrackRequest(now);
      var answer := upstream(path);
      match answer
      case Err(t) =>
        r := Err(HandleError(t));
      case Ok(data) =>
        r := Ok(PayloadEntries(data));
    }

    /** `getFileContent(path)`. */
    method GetFileContent(path: String, upstream: Upstream, decode: String -> String, now: int) returns (r: Result<String, GitHubApiError>)
      requires Valid()
      modifies this
      ensures Valid()
      ensures Counter() == AfterRequest(old(Counter()), now)
      ensures r == FetchFile(path, upstream(path), decode)
    {
      var contents := GetContent(path, upstream, now);
      if contents.Err? {
        return Err(contents.error);
      }
      var entries := contents.value;
      if |entries| == 0 || entries[0].kind != "file" || !Truthy(entries[0].content) {
        return Err(GitHubApiError(NotAFileMessage(path), None, None));
      }
      var file := entries[0];
      if file.encoding == Some("base64") {
        return Ok(decode(file.content.value));
      }
      return Ok(file.content.value);
    }

    /** The `Promise.all` of `listArticles`: every listed file is read, even after one
        has failed, and the result is the articles or the first failure in listing order. */
    method ReadArticles(files: seq<GitHubContent>, upstream: Upstream, decode: String -> String, clock: Clock, createdAt: Stamps, updatedAt: Stamps)
      returns (r: Result<seq<Article>, GitHubApiError>)
      requires Valid()
      modifies this
      ensures Valid()
      ensures Counter() == AfterRequests(old(Counter()), clock, |files|)
      ensures r == CollectArticles(files, FileTexts(files, upstream, decode), Builder(createdAt, updatedAt))
    {
      ghost var texts := FileTexts(files, upstream, decode);
      ghost var build := Builder(createdAt, updatedAt);
      var articles: seq<Article> := [];
      var failure: Option<GitHubApiError> := None;
      var i := 0;
      assert files[..0] == [] && texts[..0] == [];
      while i < |files|
        invariant 0 <= i <= |files|
        invariant Valid()
        invariant Counter() == AfterRequests(old(Counter()), clock, i)
        invariant failure.None? ==> CollectArticles(files[..i], texts[..i], build) == Ok(articles)
        invariant failure.Some? ==> CollectArticles(files[..i], texts[..i], build) == Err(failure.value)
      {
        var file := files[i];
        var content := GetFileContent(file.path, upstream, decode, clock(i));
        assert content == texts[i];
        CollectArticlesStep(files, texts, build, i);
        if failure.None? {
          match content
          case Err(e) =>
            failure := Some(e);
          case Ok(text) =>
            var article := ArticleOf(file, text, createdAt(i), updatedAt(i));
            assert article == build(i, file, text);
            articles := articles + [article];
        }
        i := i + 1;
      }
      assert files[..i] == files && texts[..i] == texts;
      if failure.Some? {
        return Err(failure.value);
      }
      return Ok(articles);
    }

    /** `listArticles(folder)`: the listing, then every markdown file in it. */
    method ListArticles(folder: String, upstream: Upstream, decode: String -> String, clock: Clock, createdAt: Stamps, updatedAt: Stamps)
      returns (r: Result<seq<Article>, GitHubApiError>)
      requires Valid()
      modifies this
      ensures Valid()
      ensures r == ListArticlesSpec(folder, upstream, decode, createdAt, updatedAt)
      ensures upstream(folder).Err? ==> Counter() == AfterRequest(old(Counter()), clock(0))
      ensures upstream(folder).Ok? ==> Counter() == AfterRequests(old(Counter()), clock, 1 + |ListedFiles(folder, upstream)|)
    {
      ghost var start := Counter();
      var contents := GetContent(folder, upstream, clock(0));
      if contents.Err? {
        return Err(HandleError(ApiError(contents.error)));
      }
      var files := MarkdownFiles(contents.value);
      var articles := ReadArticles(files, upstream, decode, Later(clock), createdAt, updatedAt);
      AfterRequestsAdd(start, clock, |files|);
      match articles
      case Err(e) =>
        r := Err(HandleError(ApiError(e)));
      case Ok(list) =>
        r := Ok(list);
    }

    /** `getArticle(folder, id)`: one request for `${folder}/${id}.md`. */
    method GetArticle(folder: String, id: String, upstream: Upstream, decode: String -> String, now: int, createdAt: String, updatedAt: String)
      returns (r: Result<Article, GitHubApiError>)
      requires Valid()
      modifies this
      ensures Valid()
      ensures Counter() == AfterRequest(old(Counter()), now)
      ensures r == GetArticleSpec(folder, id, upstream, decode, createdAt, updatedAt)
    {
      var filePath := folder + "/" + id + ".md";
      var content := GetFileContent(filePath, upstream, decode, now);
      match content
      case Err(e) =>
        r := Err(HandleError(ApiError(e)));
      case Ok(text) =>
        r := Ok(ExtractArticle(id, text, createdAt, updatedAt));
    }
  }
}
