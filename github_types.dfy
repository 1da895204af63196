/** The records of the repository-host client in `lib/types/github.ts`. */
module GitHubTypes {
  import opened Wrappers
  import opened JsText

  /** One entry of a directory listing, or the single entry returned for a file path.
      `kind` is the upstream `type` field (`'file'` or `'dir'`). */
  datatype GitHubContent = GitHubContent(
    name: String,
    path: String,
    sha: String,
    size: int,
    url: String,
    htmlUrl: String,
    downloadUrl: Option<String>,
    kind: String,
    content: Option<String>,
    encoding: Option<String>)

  /** What the upstream API returns for a content request: an array for a directory,
      one object for a file. */
  datatype ContentPayload = Single(entry: GitHubContent) | Many(entries: seq<GitHubContent>)

  /** `Array.isArray(data) ? data : [data]`. */
  function PayloadEntries(p: ContentPayload): (r: seq<GitHubContent>)
    ensures p.Single? ==> r == [p.entry]
    ensures p.Many? ==> r == p.entries
  {
    match p
    case Single(e) => [e]
    case Many(es) => es
  }

  /** The JSON body of an upstream error response. */
  datatype ErrorResponse = ErrorResponse(message: Option<String>, documentationUrl: Option<String>)

  /** The one error class the client throws. `status` keeps whatever the thrown value
      carried, which need not be a number. */
  datatype GitHubApiError = GitHubApiError(
    message: String,
    status: Option<JsValue>,
    response: Option<ErrorResponse>)
}
