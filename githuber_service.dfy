/**
  The older repository-host client, `githuber/src/services/github.service.ts`. Its error
  type carries a numeric status, its `handleError` classifies by status code, and its
  request counter works on an hourly window that it resets after counting. The upstream
  API is a function from a path (or an owner and repository) to what it answers or
  throws; base64 decoding and the clock are parameters.
 */
module GithuberService {
  import opened Wrappers
  import opened JsText
  import opened GitHubTypes
  import LibGitHubService

  // ----- errors -----

  /** The HTTP response attached to a failed request: its status and the `message` field
      of its JSON body. */
  datatype Response = Response(status: int, dataMessage: Option<String>)

  /** A value caught around an upstream call: its `message` and, for an HTTP failure,
      the response. */
  datatype Caught = Caught(message: String, response: Option<Response>)

  /** The client's error class: a message, and the status and response when there was one. */
  datatype ApiError = ApiError(message: String, status: Option<int>, response: Option<Response>)

  // The fixed messages, each written as its two sentences.
  const AuthenticationMessage: String := "Authentication failed." + " Check your GitHub token."
  const RateLimitMessage: String := "Rate limit exceeded." + " Please try again later."
  const ForbiddenMessage: String := "Access forbidden." + " Check your permissions."
  const NotFoundMessage: String := "Repository or resource not found."
  const ValidationMessage: String := "Validation failed." + " Check your request parameters."
  const OtherPrefix: String := "GitHub API error: "
  const NetworkPrefix: String := "Network or unknown error: "

  /** `error.response.data?.message || error.message`. */
  function ResponseMessage(c: Caught): String
    requires c.response.Some?
  {
    OrElse(c.response.value.dataMessage, c.message)
  }

  /** A 403 is a rate-limit failure when the response message mentions it. */
  predicate MentionsRateLimit(r: Response) {
    r.dataMessage.Some? && Contains(r.dataMessage.value, "rate limit")
  }

  /** `handleError`: with a response, the status and response are kept and the message
      depends on the status; without one, a network error with no status. */
  function HandleError(c: Caught): (r: ApiError)
    ensures c.response.Some? ==> r.status == Some(c.response.value.status) && r.response == c.response
    ensures c.response.None? ==> r == ApiError(NetworkPrefix + c.message, None, None)
    ensures r.status == Some(401) ==> r.message == AuthenticationMessage
    ensures r.status == Some(403) ==> r.message == (if MentionsRateLimit(c.response.value) then RateLimitMessage else ForbiddenMessage)
    ensures r.status == Some(404) ==> r.message == NotFoundMessage
    ensures r.status == Some(422) ==> r.message == ValidationMessage
    ensures r.status.Some? && r.status.value !in {401, 403, 404, 422} ==> r.message == OtherPrefix + ResponseMessage(c)
  {
    match c.response
    case None => ApiError(NetworkPrefix + c.message, None, None)
    case Some(response) =>
      var message :=
        if response.status == 401 then AuthenticationMessage
        else if response.status == 403 then
          (if MentionsRateLimit(response) then RateLimitMessage else ForbiddenMessage)
        else if response.status == 404 then NotFoundMessage
        else if response.status == 422 then ValidationMessage
        else OtherPrefix + ResponseMessage(c);
      ApiError(message, Some(response.status), c.response)
  }

  /** The class of an error, as a caller reads it off the message alone. */
  datatype ErrorClass = Authentication | RateLimited | Forbidden | NotFound | Validation | OtherStatus | Network

  function ClassOfMessage(m: String): ErrorClass {
    if m == AuthenticationMessage then Authentication
    else if m == RateLimitMessage then RateLimited
    else if m == ForbiddenMessage then Forbidden
    else if m == NotFoundMessage then NotFound
    else if m == ValidationMessage then Validation
    else if |OtherPrefix| <= |m| && m[..|OtherPrefix|] == OtherPrefix then OtherStatus
    else Network
  }

  /** The class the switch of `handleError` puts a caught value in. */
  function ClassOf(c: Caught): ErrorClass {
    match c.response
    case None => Network
    case Some(r) =>
      if r.status == 401 then Authentication
      else if r.status == 403 then (if MentionsRateLimit(r) then RateLimited else Forbidden)
      else if r.status == 404 then NotFound
      else if r.status == 422 then Validation
      else OtherStatus
  }

  /** The fixed messages and the two prefixes are told apart, so the message of a
      normalised error names its class: each class has its own message. */
  lemma HandleErrorClassified(c: Caught)
    ensures ClassOfMessage(HandleError(c).message) == ClassOf(c)
  {
    var m := HandleError(c).message;
    assert AuthenticationMessage[0] == 'A' && RateLimitMessage[0] == 'R' && ForbiddenMessage[0] == 'A';
    assert NotFoundMessage[0] == 'R' && ValidationMessage[0] == 'V';
    match ClassOf(c)
    case OtherStatus =>
      assert m == OtherPrefix + ResponseMessage(c);
      assert m[..|OtherPrefix|] == OtherPrefix;
      assert m[0] == 'G';
    case Network =>
      assert m == NetworkPrefix + c.message;
      assert m[0] == 'N';
      assert |OtherPrefix| <= |m| ==> m[..|OtherPrefix|][0] == 'N';
    case _ =>
  }

  /** A 403 reads as a rate-limit failure exactly when the response message says
      `rate limit`; otherwise it reads as forbidden. */
  lemma ForbiddenOrRateLimited(c: Caught)
    requires c.response.Some? && c.response.value.status == 403
    ensures HandleError(c).message == RateLimitMessage <==> MentionsRateLimit(c.response.value)
    ensures HandleError(c).message == ForbiddenMessage <==> !MentionsRateLimit(c.response.value)
  {
  }

  /** The normalised error has a status exactly when there was a response, and then
      the status is 404 exactly when the response's is. */
  lemma NotFoundIff(c: Caught)
    ensures HandleError(c).status == Some(404) <==> c.response.Some? && c.response.value.status == 404
    ensures HandleError(c).status.None? <==> c.response.None?
  {
  }

  // ----- contents -----

  /** One entry as the upstream API returns it, before its fields are renamed. */
  datatype RawItem = RawItem(
    name: String,
    path: String,
    sha: String,
    size: int,
    url: String,
    html_url: String,
    download_url: Option<String>,
    kind: String,
    content: Option<String>,
    encoding: Option<String>)

  /** An upstream content answer: one object, or an array. */
  datatype RawPayload = RawSingle(item: RawItem) | RawMany(items: seq<RawItem>)

  /** The upstream content API: what a request for a path returns or throws. */
  type Upstream = String -> Result<RawPayload, Caught>

  /** The renaming of one entry in `getContent`; the record is the same as the newer
      client's. */
  function ToContent(item: RawItem): (c: GitHubContent)
    ensures c.name == item.name && c.path == item.path && c.sha == item.sha && c.size == item.size
    ensures c.url == item.url && c.htmlUrl == item.html_url && c.downloadUrl == item.download_url
    ensures c.kind == item.kind && c.content == item.content && c.encoding == item.encoding
  {
    GitHubContent(item.name, item.path, item.sha, item.size, item.url, item.html_url,
                  item.download_url, item.kind, item.content, item.encoding)
  }

  /** `Array.isArray(data) ? data : [data]`, then the renaming of each entry. */
  function Contents(p: RawPayload): (r: seq<GitHubContent>)
    ensures p.RawSingle? ==> r == [ToContent(p.item)]
    ensures p.RawMany? ==> |r| == |p.items| && forall k :: 0 <= k < |r| ==> r[k] == ToContent(p.items[k])
  {
    match p
    case RawSingle(item) => [ToContent(item)]
    case RawMany(items) => seq(|items|, k requires 0 <= k < |items| => ToContent(items[k]))
  }

  /** `getContent` without its bookkeeping. */
  function ContentOf(answer: Result<RawPayload, Caught>): (r: Result<seq<GitHubContent>, ApiError>)
    ensures answer.Ok? ==> r == Ok(Contents(answer.value))
    ensures answer.Err? ==> r == Err(HandleError(answer.error))
  {
    match answer
    case Ok(p) => Ok(Contents(p))
    case Err(c) => Err(HandleError(c))
  }

  /** The checks of `getFileContent`, shared with the newer client, then base64 decoding
      when the entry says so. Its own error has neither status nor response. */
  function FileContentOf(path: String, entries: seq<GitHubContent>, decode: String -> String): (r: Result<String, ApiError>)
    ensures r.Err? <==> !LibGitHubService.IsReadableFile(entries)
    ensures r.Err? ==> r.error == ApiError(LibGitHubService.NotAFileMessage(path), None, None)
    ensures r.Ok? && entries[0].encoding == Some("base64") ==> r.value == decode(entries[0].content.value)
    ensures r.Ok? && entries[0].encoding != Some("base64") ==> r.value == entries[0].content.value
  {
    if !LibGitHubService.IsReadableFile(entries) then Err(ApiError(LibGitHubService.NotAFileMessage(path), None, None))
    else if entries[0].encoding == Some("base64") then Ok(decode(entries[0].content.value))
    else Ok(entries[0].content.value)
  }

  /** `getFileContent(path)` on the upstream answer for `path`. */
  function FetchFile(path: String, answer: Result<RawPayload, Caught>, decode: String -> String): Result<String, ApiError> {
    match ContentOf(answer)
    case Err(e) => Err(e)
    case Ok(entries) => FileContentOf(path, entries, decode)
  }

  /** A file answered as one object is read whenever its content is not empty, and the
      upstream failure of a file request arrives classified. */
  lemma FetchFileMeaning(path: String, answer: Result<RawPayload, Caught>, decode: String -> String)
    ensures answer.Err? ==> FetchFile(path, answer, decode) == Err(HandleError(answer.error))
    ensures answer.Ok? && answer.value.RawSingle? && answer.value.item.kind == "file" && Truthy(answer.value.item.content) ==>
              FetchFile(path, answer, decode).Ok?
    ensures answer.Ok? && answer.value.RawSingle? && answer.value.item.kind == "dir" ==>
              FetchFile(path, answer, decode) == Err(ApiError(LibGitHubService.NotAFileMessage(path), None, None))
    ensures answer.Ok? && answer.value == RawMany([]) ==> FetchFile(path, answer, decode).Err?
  {
  }

  // ----- repositories -----

  /** The repository record, reduced to what `isRepositoryPublic` reads. */
  datatype Repository = Repository(owner: String, repo: String, isPrivate: bool)

  /** The upstream repository API, by owner and repository name. */
  type RepositoryUpstream = (String, String) -> Result<Repository, Caught>

  /** `isRepositoryPublic` on the outcome of `getRepository`: every error of
      `getRepository` is already a normalised `GitHubApiError`. */
  function PublicOf(fetched: Result<Repository, ApiError>): Result<bool, ApiError> {
    match fetched
    case Ok(repository) => Ok(!repository.isPrivate)
    case Err(e) => if e.status == Some(404) then Ok(false) else Err(e)
  }

  /** A missing repository reads as not public; any other failure propagates unchanged. */
  lemma PublicOfMeaning(answer: Result<Repository, Caught>)
    ensures answer.Ok? ==> PublicOf(RepositoryOf(answer)) == Ok(!answer.value.isPrivate)
    ensures answer.Err? ==>
              (PublicOf(RepositoryOf(answer)) == Ok(false) <==>
               answer.error.response.Some? && answer.error.response.value.status == 404)
    ensures answer.Err? && PublicOf(RepositoryOf(answer)).Err? ==>
              PublicOf(RepositoryOf(answer)) == Err(HandleError(answer.error))
  {
    if answer.Err? {
      NotFoundIff(answer.error);
    }
  }

  /** `getRepository` without its bookkeeping. */
  function RepositoryOf(answer: Result<Repository, Caught>): Result<Repository, ApiError> {
    match answer
    case Ok(repository) => Ok(repository)
    case Err(c) => Err(HandleError(c))
  }

  // ----- the request counter -----

  /** The counter's state: requests counted in the current hour and when it began. */
  datatype HourWindow = HourWindow(count: int, lastReset: int)

  const HourLength: int := 3600000

  /** `trackRequest` at time `now`: the request is counted, then after more than an hour
      the count drops to zero, that request included, and a new hour begins. */
  function AfterTracked(w: HourWindow, now: int): (r: HourWindow)
    ensures now - w.lastReset > HourLength ==> r == HourWindow(0, now)
    ensures now - w.lastReset <= HourLength ==> r == HourWindow(w.count + 1, w.lastReset)
  {
    var w' := w.(count := w.count + 1);
    if now - w'.lastReset > HourLength then HourWindow(0, now) else w'
  }

  /** `n` requests tracked at the same time `now`. */
  function AfterTrackedN(w: HourWindow, now: int, n: nat): HourWindow
    decreases n
  {
    if n == 0 then w else AfterTracked(AfterTrackedN(w, now, n - 1), now)
  }

  /** A burst of `n >= 1` requests at one time: when the hour has run out the first of
      them opens a new hour uncounted, so the count ends at `n - 1`; otherwise it rises
      by `n`. */
  lemma {:induction false} HourlyBurst(w: HourWindow, now: int, n: nat)
    requires n >= 1
    ensures now - w.lastReset > HourLength ==> AfterTrackedN(w, now, n) == HourWindow(n - 1, now)
    ensures now - w.lastReset <= HourLength ==> AfterTrackedN(w, now, n) == HourWindow(w.count + n, w.lastReset)
    decreases n
  {
    if n > 1 {
      HourlyBurst(w, now, n - 1);
    }
  }

  /** What `getRequestStats` reports. */
  datatype RequestStats = RequestStats(count: int, resetTime: int)

  /** The statistics of a counter state. */
  function StatsOf(w: HourWindow): (s: RequestStats)
    ensures s.count == w.count && s.resetTime - HourLength == w.lastReset
  {
    RequestStats(w.count, w.lastReset + HourLength)
  }

  /** Right after a request the reported reset time is not in the past, and a reset
      reports a count of zero with the reset time a full hour ahead. */
  lemma ResetTimeAhead(w: HourWindow, now: int)
    ensures StatsOf(AfterTracked(w, now)).resetTime >= now
    ensures now - w.lastReset > HourLength ==> StatsOf(AfterTracked(w, now)) == RequestStats(0, now + HourLength)
  {
  }

  class GitHubService {
    var requestCount: int
    var lastResetTime: int

    predicate Valid()
      reads this
    {
      requestCount >= 0
    }

    function Counter(): HourWindow
      reads this
    {
      HourWindow(requestCount, lastResetTime)
    }

    /** A new client: nothing counted, the hour beginning at construction time. */
    constructor(now: int)
      ensures Valid() && Counter() == HourWindow(0, now)
    {
      requestCount := 0;
      lastResetTime := now;
    }

    /** `trackRequest`. */
    method TrackRequest(now: int)
      requires Valid()
      modifies this
      ensures Valid()
      ensures Counter() == AfterTracked(old(Counter()), now)
    {
      requestCount := requestCount + 1;
      if now - lastResetTime > HourLength {
        requestCount := 0;
        lastResetTime := now;
      }
    }

    /** `getRequestStats`: reads the counter and changes nothing. */
    method GetRequestStats() returns (s: RequestStats)
      ensures s.count == requestCount && s.resetTime == lastResetTime + HourLength
      ensures s == StatsOf(Counter())
    {
      s := RequestStats(requestCount, lastResetTime + HourLength);
    }

    /** `getContent(path)`: one request, then the renamed entries or the classified error. */
    method GetContent(path: String, upstream: Upstream, now: int) returns (r: Result<seq<GitHubContent>, ApiError>)
      requires Valid()
      modifies this
      ensures Valid()
      ensures Counter() == AfterTracked(old(Counter()), now)
      ensures r == ContentOf(upstream(path))
    {
      TrackRequest(now);
      var answer := upstream(path);
      match answer
      case Err(c) =>
        r := Err(HandleError(c));
      case Ok(data) =>
        r := Ok(Contents(data));
    }

    /** `getFileContent(path)`. */
    method GetFileContent(path: String, upstream: Upstream, decode: String -> String, now: int) returns (r: Result<String, ApiError>)
      requires Valid()
      modifies this
      ensures Valid()
      ensures Counter() == AfterTracked(old(Counter()), now)
      ensures r == FetchFile(path, upstream(path), decode)
    {
      var contents := GetContent(path, upstream, now);
      if contents.Err? {
        return Err(contents.error);
      }
      var entries := contents.value;
      if |entries| == 0 || entries[0].kind != "file" || !Truthy(entries[0].content) {
        return Err(ApiError(LibGitHubService.NotAFileMessage(path), None, None));
      }
      var file := entries[0];
      if file.encoding == Some("base64") {
        return Ok(decode(file.content.value));
      }
      return Ok(file.content.value);
    }

    /** `getRepository(owner, repo)`: one request, then the record or the classified error. */
    method GetRepository(owner: String, repo: String, upstream: RepositoryUpstream, now: int) returns (r: Result<Repository, ApiError>)
      requires Valid()
      modifies this
      ensures Valid()
      ensures Counter() == AfterTracked(old(Counter()), now)
      ensures r == RepositoryOf(upstream(owner, repo))
    {
      TrackRequest(now);
      var answer := upstream(owner, repo);
      match answer
      case Err(c) =>
        r := Err(HandleError(c));
      case Ok(repository) =>
        r := Ok(repository);
    }

    /** `isRepositoryPublic(owner, repo)`. */
    method IsRepositoryPublic(owner: String, repo: String, upstream: RepositoryUpstream, now: int) returns (r: Result<bool, ApiError>)
      requires Valid()
      modifies this
      ensures Valid()
      ensures Counter() == AfterTracked(old(Counter()), now)
      ensures r == PublicOf(RepositoryOf(upstream(owner, repo)))
    {
      var fetched := GetRepository(owner, repo, upstream, now);
      match fetched
      case Ok(repository) =>
        r := Ok(!repository.isPrivate);
      case Err(e) =>
        if e.status == Some(404) {
          r := Ok(false);
        } else {
          r := Err(e);
        }
    }
  }
}
