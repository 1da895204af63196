# giran article services, modelled in Dafny

giran is a small markdown blog. Its articles come from a folder of `.md` files in a GitHub
repository, or from a built-in fallback dataset. This project models the parts of its
TypeScript code that compute something, and proves what they promise:

- the markdown text utilities: frontmatter parsing, plain-text excerpts, reading time;
- the two GitHub clients:
  - the newer one turns `.md` files into articles (`lib/services/github.service.ts`);
  - the older one classifies errors by HTTP status (`githuber/src/services/github.service.ts`);
  - both keep a request counter, each on its own window;
- the five-entry fallback dataset and the article service that serves it;
- the two configuration modules;
- the web server's normalisation of the article service's answers;
- the client's `formatArticleTitle`.

One module per source file, plus two shared ones:

- `Wrappers`: `Option`, and `Result` for operations that throw.
- `JsText`: the JavaScript string operations the code relies on, over `seq<char>`. These are
  `trim`, `indexOf`, `replace` with a string pattern (first occurrence only), `endsWith`,
  `split`/`join` on one character, and the `\s` class.

The regular expressions are written out as scans that follow the JavaScript engine's
leftmost-first, greedy or lazy matching. Code that changes fields in place is modelled as
classes whose methods are proved against specification functions:

- the two request counters;
- the service configuration record that `validateGitHubConfig` repairs.

The frontmatter loop is a method proved against a function. Everything else is functions
and lemmas.

Inputs the code reads from the outside world are parameters:

- the environment variables;
- the clock (`Date.now`);
- the upstream answers of Octokit and `fetch`;
- base64 decoding;
- the markdown renderer.

## Model

| member | source | states |
|---|---|---|
| JsText.OrElse | lib/config.ts:10 | `x \|\| fallback` on an optional string: the value when set and non-empty, else the fallback; non-empty exactly when one of them is |
| JsText.CharRunEnd | lib/services/markdown.service.ts:89 | the end of the longest run of one character from a position: that character throughout, and none at the end |
| JsText.SpaceRunEnd | lib/services/markdown.service.ts:89 | the end of the longest whitespace run from a position (what `\s+` takes) |
| JsText.TrimStart | lib/services/markdown.service.ts:55 | `trimStart` keeps a suffix of the input, drops only whitespace, leaves no leading whitespace, and leaves text that starts with a non-space unchanged |
| JsText.TrimEnd | lib/services/markdown.service.ts:55 | `trimEnd` keeps a prefix, drops only whitespace, and leaves no trailing whitespace |
| JsText.Trim | lib/services/markdown.service.ts:55 | `trim` leaves no whitespace at either end and never grows the text |
| JsText.TrimUnchanged | lib/services/markdown.service.ts:95 | `trim` leaves a text that starts and ends with a non-space unchanged |
| JsText.TrimSlice | lib/services/markdown.service.ts:55 | what `trim` keeps is one contiguous slice of the input, and everything around it is whitespace |
| JsText.TrimKeepsOut | lib/services/markdown.service.ts:94-95 | `trim` never brings in a character the text did not hold (no newline reappears after the newline runs are replaced) |
| JsText.IndexOfFrom | lib/services/github.service.ts:146 | `indexOf(pat, i)`: an occurrence at or after `i` with none before it, or none at all |
| JsText.ContainsIff | githuber/src/services/github.service.ts:425 | `includes` holds exactly when the pattern occurs somewhere |
| JsText.ReplaceFirst | lib/services/github.service.ts:146 | string-pattern `replace`: the input unchanged without an occurrence, else only the first occurrence replaced |
| JsText.RemoveFirst | server/src/githuber.service.ts:18 | `replace(pat, '')`: the first occurrence removed wherever it is, the input unchanged without one |
| JsText.RemoveFirstMd | server/src/githuber.service.ts:37 | in `a` + `.md` + `b` with no `.md` inside `a`, `replace('.md', '')` removes exactly the `.md` after `a`, leaving `a` + `b` (`.md` cannot overlap itself) |
| JsText.SplitOn | lib/services/markdown.service.ts:49 | `split` on one character: at least one piece, no piece holds the separator, and joining the pieces gives the input back |
| JsText.SplitJoin | client/src/services/api.ts:63-65 | splitting a join of separator-free pieces gives the pieces back |
| MarkdownService.SplitFrontmatter | lib/services/markdown.service.ts:37-45 | a match splits the document into opening fence, header, closing fence and body, with no closing fence inside the header; no match when no closing fence follows the opening one |
| MarkdownService.SplitCompose | lib/services/markdown.service.ts:37-45 | every document built from a fence-free header and any body is matched, and gives back that header and body |
| MarkdownService.EmptyBlockIsNotFrontmatter | lib/services/markdown.service.ts:37-42 | `---\n---\n` followed by a body is frontmatter exactly when `\n` + body holds a closing fence: the closing fence needs a newline before it, and the header may be empty |
| MarkdownService.NoFenceWithoutDash | lib/services/markdown.service.ts:37 | a text without `-` holds no fence |
| MarkdownService.EmptyBlockExample | lib/services/__tests__/markdown.service.test.ts:224-235 | `---\n---\n\nContent` has no frontmatter and keeps the whole input as its body |
| MarkdownService.BodyOf | lib/services/markdown.service.ts:40-45 | the body is the whole input without a match, else what follows the closing fence |
| MarkdownService.StripQuotes | lib/services/markdown.service.ts:58 | at most one leading and one trailing quote (`"` or `'`) removed; a lone quote becomes empty |
| MarkdownService.LineEntry | lib/services/markdown.service.ts:52-59 | one header line's key and value, or none; stated by `LineEntryAtColon` and `LineEntryNoColon` |
| MarkdownService.LineEntryAtColon | lib/services/markdown.service.ts:52-58 | a line splits at its first `:`; no entry when the key part is empty, else the trimmed key and the trimmed, unquoted rest, later colons kept |
| MarkdownService.LineEntryNoColon | lib/services/markdown.service.ts:52-54 | a line without `:` gives no entry |
| MarkdownService.LineEntries | lib/services/markdown.service.ts:49-60 | one entry (or none) per header line, in order |
| MarkdownService.LastDefinition | lib/services/markdown.service.ts:51-60 | the last line that defines a key, or none when no line does |
| MarkdownService.Entries | lib/services/markdown.service.ts:49-60 | the dictionary the entries fill in order, a later line overwriting an earlier one; stated by `EntriesMeaning` |
| MarkdownService.EntriesMeaning | lib/services/markdown.service.ts:51-60 | a key is in the dictionary exactly when some line defines it, and its value comes from the last such line |
| MarkdownService.ParseFrontmatterSpec | lib/services/markdown.service.ts:31-63 | the dictionary and body `parseFrontmatter` returns; stated by `ParseFrontmatterMeaning` |
| MarkdownService.ParseFrontmatter | lib/services/markdown.service.ts:31-63 | the loop that fills the dictionary computes exactly the specification function |
| MarkdownService.ParseFrontmatterMeaning | lib/services/markdown.service.ts:40-62 | without a match: no dictionary and the input as body; with one: a dictionary (possibly empty) holding exactly the keys some header line defines, each with its last value |
| MarkdownService.MarkdownToHtml | lib/services/markdown.service.ts:68-76 | only the body is rendered, and the frontmatter returned is the parsed one |
| MarkdownService.HeadingPrefixEnd | lib/services/markdown.service.ts:89 | a match of `^#+\s+` starts only at a line start and at a `#`, and ends after it; no match where the character is not `#` |
| MarkdownService.RemoveHeadingsFrom | lib/services/markdown.service.ts:89 | removing heading markers never lengthens the text; what it does line by line is stated by `HeadingDropped`, `NoHeadingKept`, `HeadingLineAt` and the lemmas after them |
| MarkdownService.HeadingDropped | lib/services/markdown.service.ts:89 | where a heading prefix matches, it is dropped and the replacement goes on after it |
| MarkdownService.NoHeadingKept | lib/services/markdown.service.ts:89 | where none matches, the character is kept |
| MarkdownService.HashFreeKept | lib/services/markdown.service.ts:89 | a stretch without `#` is kept as it is |
| MarkdownService.HashFreeUnchanged | lib/services/markdown.service.ts:89 | a text without `#` from a position on is unchanged from there |
| MarkdownService.HeadingLineAt | lib/services/markdown.service.ts:89 | at a line start, a `#` run and the whitespace after it are dropped, and the `#`-free text after them is kept |
| MarkdownService.HeadingLineDropped | lib/services/markdown.service.ts:89 | a single line of `#`s, whitespace and a text without `#` becomes that text |
| MarkdownService.HeadingLineKept | lib/services/markdown.service.ts:89 | a heading line `#`… + space + text keeps its text and the replacement goes on after it |
| MarkdownService.HeadingLineAfter | lib/services/markdown.service.ts:89 | a marker and a text after a line break (or at the start) form a heading line |
| MarkdownService.ThreeHeadingLines | lib/services/markdown.service.ts:89 | three heading lines in a row keep their three texts, in order |
| MarkdownService.HeadingsOnly | lib/services/__tests__/markdown.service.test.ts:311-316 | `# a\n## b\n### c` keeps `a\n`, `b\n` and `c` |
| MarkdownService.LinkAt | lib/services/markdown.service.ts:90 | a link is reported at a position exactly when one starts there: `[`, a non-empty text without `]`, `](`, a non-empty target without `)`, and `)`; the reported ends are those of that match |
| MarkdownService.RemoveLinksFrom | lib/services/markdown.service.ts:90 | replacing links by their text never lengthens the text and leaves a text without `[` unchanged |
| MarkdownService.LinkBecomesText | lib/services/markdown.service.ts:90 | `[t](u)` followed by `rest`, with `t` and `u` non-empty and free of `]` and `)` respectively, becomes `t` and the replacement goes on after the link; with no `[` in `rest` the result is `t` + `rest` |
| MarkdownService.NextAt | lib/services/markdown.service.ts:91-93 | the first occurrence of a character at or after a position, or the end of the text: none in between |
| MarkdownService.DelimitedAt | lib/services/markdown.service.ts:91-93 | a bold, italic or code match is reported at a position exactly when one starts there: the markers, a non-empty inner text without the marker character, the markers again; the reported end is that of the inner text |
| MarkdownService.RemoveDelimitedFrom | lib/services/markdown.service.ts:91-93 | removing the markers never lengthens the text and leaves a text without the marker unchanged |
| MarkdownService.DelimitedMatchUnique | lib/services/markdown.service.ts:91-93 | at most one match starts at a position, because the inner text stops at the first marker character |
| MarkdownService.DelimitedFound | lib/services/markdown.service.ts:91-93 | every match at a position is the one the matcher reports |
| MarkdownService.DelimitedReplaced | lib/services/markdown.service.ts:91-93 | a reported match is replaced by its inner text, and the replacement goes on after the closing markers |
| MarkdownService.DelimitedStep | lib/services/markdown.service.ts:91-93 | wherever the pattern matches, the markers are dropped, the inner text kept, and the replacement goes on after the match |
| MarkdownService.MarkedText | lib/services/markdown.service.ts:91-93 | markers around a non-empty text free of the marker character, at the start of any text, form a match whose inner text is that text |
| MarkdownService.CollapseNewlinesFrom | lib/services/markdown.service.ts:94 | runs of newlines are replaced: no newline is left and the text never grows; the replacement itself is stated by `NewlineRunReplaced`, `NonNewlineKept` and `NewlineRunStep` |
| MarkdownService.NewlineRunReplaced | lib/services/markdown.service.ts:94 | a run of newlines becomes one space, and the replacement goes on after the run |
| MarkdownService.NonNewlineKept | lib/services/markdown.service.ts:94 | any other character is kept |
| MarkdownService.NewlineFreeUnchanged | lib/services/markdown.service.ts:94 | a text without newline from a position on is unchanged from there |
| MarkdownService.NewlineRunStep | lib/services/markdown.service.ts:94 | the text up to the next newline is kept, then that newline run becomes one space |
| MarkdownService.CollapseNewlinesShift | lib/services/markdown.service.ts:94 | the replacement from inside the second part of `a + b` is the replacement of `b` from there |
| MarkdownService.CollapseNewlinesAlike | lib/services/markdown.service.ts:94 | two texts that agree from two positions on give the same replacement from there |
| MarkdownService.NewlinesJoined | lib/services/markdown.service.ts:94 | `t` + a newline run + a rest starting with no newline becomes `t`, one space, and the replaced rest |
| MarkdownService.LinesJoined | lib/services/__tests__/markdown.service.test.ts:318-324 | `a\n\nb\n\nc` becomes `a b c` |
| MarkdownService.PlainText | lib/services/markdown.service.ts:88-95 | the plain text is no longer than the body, holds no newline and has no whitespace at either end |
| MarkdownService.Truncate | lib/services/markdown.service.ts:98-102 | the text itself when it fits; otherwise its trimmed first `maxLength` characters followed by `...`; at most `maxLength + 3` long in either case |
| MarkdownService.ExtractExcerpt | lib/services/markdown.service.ts:81-103 | at most `maxLength + 3` characters, no newline, no leading whitespace; equal to the plain text when that fits; ends in `...` when it does not |
| MarkdownService.ExcerptIgnoresFrontmatter | lib/services/markdown.service.ts:85 | the excerpt of a document with frontmatter depends only on its body |
| MarkdownService.ExcerptOfEmpty | lib/services/markdown.service.ts:88-95 | the empty document has the empty excerpt |
| MarkdownService.MarkupFreeUnchanged | lib/services/markdown.service.ts:90-93 | a text without `[`, `*` and `` ` `` is unchanged by the link, bold, italic and code steps |
| MarkdownService.TitlesPlainText | lib/services/__tests__/markdown.service.test.ts:311-316 | the plain text of `# a\n## b\n### c` is `a b c` |
| MarkdownService.ExcerptOfHeadings | lib/services/__tests__/markdown.service.test.ts:311-316 | with the default length of 160, the excerpt of `# a\n## b\n### c` is `a b c` when that fits |
| MarkdownService.SplitOnSpaceRuns | lib/services/markdown.service.ts:110 | `split(/\s+/)` gives at least one piece, and no piece holds whitespace |
| MarkdownService.SpaceRunsOfWord | lib/services/markdown.service.ts:110 | a word adds no whitespace run |
| MarkdownService.SpaceRunsOfGap | lib/services/markdown.service.ts:110 | a gap of whitespace adds one run, unless it continues a run |
| MarkdownService.PiecesCountRuns | lib/services/markdown.service.ts:110 | the number of pieces is one more than the number of maximal whitespace runs |
| MarkdownService.CeilDiv | lib/services/markdown.service.ts:112 | `Math.ceil(n / d)`: the least multiple count that covers `n` |
| MarkdownService.EstimateReadingTime | lib/services/markdown.service.ts:108-113 | at least one minute, and the least number of minutes that covers the body's pieces at 200 a minute |
| MarkdownService.ReadingTimeIgnoresFrontmatter | lib/services/markdown.service.ts:109 | the reading time of a document with frontmatter depends only on its body |
| ArticleExtraction.LastDotBelow | lib/services/github.service.ts:149 | the greedy `.+` backs off to the last position below the bound that still matches |
| ArticleExtraction.TitleCaptureAt | lib/services/github.service.ts:149 | at a given start, the longest capture `(.+)` for which the rest of `^#\s+(.+)$` matches, or none |
| ArticleExtraction.FirstTitleFrom | lib/services/github.service.ts:149 | the leftmost start where `^#\s+(.+)$` matches, with its longest capture, or no match anywhere |
| ArticleExtraction.Title | lib/services/github.service.ts:149-150 | `titleMatch ? titleMatch[1] : id`: the capture of the first `^#\s+(.+)$` match, or the id; its meaning is stated by `TitleMeaning` |
| ArticleExtraction.TitleMeaning | lib/services/github.service.ts:149-150 | no match gives the id as title; a match gives the capture of the leftmost, longest match, a non-empty text inside one line |
| ArticleExtraction.TailCapture | lib/services/github.service.ts:153 | after `\s+` ends at `m`, `.+\n+(.+)` can match in at most one way: `.+` to the end of the line, `\n+` over every following newline; every match has the capture returned, and a returned capture comes from such a match |
| ArticleExtraction.HeadingTailDetermined | lib/services/github.service.ts:153 | any match of `.+\n+` after `m` ends `.+` at the line end and `\n+` at the end of the newline run |
| ArticleExtraction.HeadingSpaceEnd | lib/services/github.service.ts:153 | backtracking the greedy `\s+`: the largest end in the range after which the rest matches, none of the larger ends working; none when no end in the range works |
| ArticleExtraction.HeadingGroupDetermined | lib/services/github.service.ts:153 | every match of `#{1,6}\s+.+\n+` at `i` starts with `#`, takes the whole `#` run, ends `\s+` inside the whitespace run after it, and has its capture fixed by where `\s+` ends |
| ArticleExtraction.HeadedCaptureAt | lib/services/github.service.ts:153 | a capture found after the group starts on a later line, at a non-empty line, after a `#`; its full meaning is `HeadedCaptureAtMeaning` |
| ArticleExtraction.HeadedCaptureAtMeaning | lib/services/github.service.ts:153 | no capture exactly when the group cannot match at `i`; otherwise the capture after the match whose `\s+` is longest |
| ArticleExtraction.HeadedCaptureFound | lib/services/github.service.ts:153 | a found capture comes from a match of the group that no other match outdoes in the length of `\s+` |
| ArticleExtraction.HeadedCaptureMissing | lib/services/github.service.ts:153 | when no capture is found the group matches nowhere at `i` |
| ArticleExtraction.ExcerptCaptureAt | lib/services/github.service.ts:153 | `^(?:#{1,6}\s+.+\n+)?(.+)$` matches at a position exactly when a non-empty line starts there; the capture starts a non-empty line at or after it, and is that line itself when it does not start with `#` |
| ArticleExtraction.ExcerptCaptureAtGroup | lib/services/github.service.ts:153 | the group is tried first: with no match of the group the capture is the line itself; with one, the capture follows the match with the longest `\s+` |
| ArticleExtraction.FirstExcerptFrom | lib/services/github.service.ts:153 | the leftmost position where the regex matches: the first non-empty line at or after `i`, no earlier line being non-empty; none when no non-empty line follows |
| ArticleExtraction.Prefix | lib/services/github.service.ts:154 | `substring(0, n)`: a prefix of at most `n` characters, the whole text when it fits |
| ArticleExtraction.Excerpt | lib/services/github.service.ts:153-154 | the excerpt is at most 150 characters |
| ArticleExtraction.ExcerptMeaning | lib/services/github.service.ts:153-154 | the excerpt is empty exactly when the content has no non-empty line |
| ArticleExtraction.ExcerptOfFirstLine | lib/services/github.service.ts:153-154 | the excerpt is the first 150 characters of the line where the regex's capture for the first non-empty line starts |
| ArticleExtraction.WidestHeadingGroupCaptured | lib/services/github.service.ts:153 | at a line start where the group matches with `\s+` taking all the whitespace after the `#` run, the capture is the one after that match |
| ArticleExtraction.ExcerptAfterHeadingGroup | lib/services/github.service.ts:153-154 | content opening with such a group has as excerpt the first 150 characters of the line the group leads to |
| ArticleExtraction.ExcerptAfterTitle | lib/services/github.service.ts:152-154 | the first paragraph after the title: for `# t`, a blank line and a body line `b`, the excerpt is the first 150 characters of `b` |
| ArticleExtraction.ExtractArticle | lib/services/github.service.ts:146-164 | the article has the given id as both id and slug, the content unchanged, the extracted title and excerpt (at most 150 characters), and the two timestamps passed in |
| GitHubTypes.PayloadEntries | lib/services/github.service.ts:93 | a single entry is wrapped as a one-element list; a list is kept as it is |
| LibGitHubService.HandleError | lib/services/github.service.ts:212-234 | a `GitHubApiError` is passed through; otherwise a parsed response keeps its status and message, and without one a non-empty string message is kept, a missing or empty one becomes `Unknown GitHub API error`, and only a numeric status is kept |
| LibGitHubService.HandleErrorIdempotent | lib/services/github.service.ts:213-215 | normalising a normalised error changes nothing |
| LibGitHubService.ContentOf | lib/services/github.service.ts:77-100 | an answer becomes the list of its entries (one entry wrapped); a thrown value becomes the normalised error |
| LibGitHubService.FileContentOf | lib/services/github.service.ts:111-125 | fails exactly unless the first entry exists, is a file and has non-empty content; decodes base64 content and returns other content unchanged |
| LibGitHubService.FetchFile | lib/services/github.service.ts:105-125 | an upstream failure becomes the normalised error; an answer goes through the file checks |
| LibGitHubService.DirectoryIsNotAFile | lib/services/github.service.ts:114-118 | a directory is rejected with the not-a-file message |
| LibGitHubService.IsMarkdownFile | lib/services/github.service.ts:139 | an entry is kept when it is a file whose name ends in `.md`; `MarkdownFiles` states the filter |
| LibGitHubService.MarkdownFiles | lib/services/github.service.ts:138-140 | keeps exactly the listed entries that are files named `*.md` |
| LibGitHubService.MarkdownFilesAppend | lib/services/github.service.ts:138-140 | the filter works entry by entry, so it keeps listing order |
| LibGitHubService.ArticleId | lib/services/github.service.ts:146 | `file.name.replace('.md', '')`: the first `.md` removed; `ArticleIdLength`, `ArticleIdOfStem` and `ArticleIdLosesName` state what that gives |
| LibGitHubService.ArticleIdLength | lib/services/github.service.ts:146 | the id is the name when the name holds no `.md`, else three characters shorter |
| LibGitHubService.ArticleIdOfStem | lib/services/github.service.ts:146 | the id of `stem.md` is `stem` when `.md` occurs nowhere earlier |
| LibGitHubService.ArticleIdLosesName | lib/services/github.service.ts:146 | the first `.md` is removed even when it is not the extension: `a` + `.md` + `b` with no `.md` in `a` gets the id `a` + `b` (`my.mdx.md` gets `myx.md`) |
| LibGitHubService.ListedIdMissesFile | lib/services/github.service.ts:146-184 | for every listed `a` + `.md` + `b` with no `.md` in `a` and `b` not starting with `.`, the path `getArticle` builds from the listed id is not the listed file |
| LibGitHubService.ArticlePath | lib/services/github.service.ts:184 | `${folder}/${id}.md`: the folder, a slash, the id and the extension |
| LibGitHubService.FileTexts | lib/services/github.service.ts:144-145 | one read per markdown file, in listing order |
| LibGitHubService.ArticleOf | lib/services/github.service.ts:146-164 | a listed article's id is its file name minus the first `.md`, its slug the id, and its content the text read |
| LibGitHubService.Builder | lib/services/github.service.ts:146-165 | the `k`-th listed file becomes the article extracted from its text, with the `k`-th pair of timestamps |
| LibGitHubService.CollectArticles | lib/services/github.service.ts:143-168 | `Promise.all` over the reads: the articles in listing order, or the first failure; stated by `CollectArticlesOk` and `CollectArticlesErr` |
| LibGitHubService.CollectArticlesStep | lib/services/github.service.ts:143-166 | each file adds its article while all is well; the first failure is kept |
| LibGitHubService.FirstFailure | lib/services/github.service.ts:143-166 | the first failed read in listing order, or none |
| LibGitHubService.FirstFailureUnique | lib/services/github.service.ts:143-166 | a failed read with only successful reads before it is the first failure |
| LibGitHubService.CollectArticlesOk | lib/services/github.service.ts:143-168 | when every read succeeds, one article per file, in order |
| LibGitHubService.CollectArticlesErr | lib/services/github.service.ts:143-171 | when a read fails, no list at all, and the error is that of the first failing file |
| LibGitHubService.ListArticlesSpec | lib/services/github.service.ts:130-172 | the listing's error, or the articles collected from its markdown files; `ListArticlesMeaning` states what it holds |
| LibGitHubService.ListArticlesMeaning | lib/services/github.service.ts:130-172 | the listing succeeds exactly when every markdown file is read; then one article per file with its id, slug, content, title, an excerpt of at most 150 characters and that article's own two timestamps; else the first failure's error |
| LibGitHubService.GetArticleSpec | lib/services/github.service.ts:177-207 | reads `folder/id.md`; on success the given id is both id and slug, with the text, its title and an excerpt of at most 150 characters; on failure the read's error |
| LibGitHubService.AfterRequest | lib/services/github.service.ts:239-250 | after more than 60000 ms the count restarts at 1 in a new window, else it rises by 1; the count is at least 1 afterwards |
| LibGitHubService.AfterRequestsAdd | lib/services/github.service.ts:239-250 | one request at the first reading of the clock and then `n` more at the following readings is `1 + n` requests |
| LibGitHubService.AfterRequestsSinceReset | lib/services/github.service.ts:239-250 | after `n` requests at any readings of the clock, the count is the number of requests in the current window: the old count plus `n` in the old window, or `n - k` in a window opened at the `k`-th request's reading |
| LibGitHubService.WithinWindow | lib/services/github.service.ts:239-250 | with a clock that never goes back and a last reading at most 60000 ms after the window opened, no window opens and the count rises by `n` |
| LibGitHubService.AfterRequestsAtOnce | lib/services/github.service.ts:239-250 | `n` requests that all read the same time: count `n` in a new window, or raised by `n` in the current one |
| LibGitHubService.GitHubService.constructor | lib/services/github.service.ts:18-19 | the counter starts at 0 with the window starting at construction time |
| LibGitHubService.GitHubService.TrackRequest | lib/services/github.service.ts:239-250 | the counter fields move as `AfterRequest` says, and the count is at least 1 |
| LibGitHubService.GitHubService.GetContent | lib/services/github.service.ts:77-100 | one request counted; the answer normalised as `ContentOf` says |
| LibGitHubService.GitHubService.GetFileContent | lib/services/github.service.ts:105-125 | one request counted; the result as `FetchFile` says |
| LibGitHubService.GitHubService.ReadArticles | lib/services/github.service.ts:143-166 | the `k`-th file's request is counted at the `k`-th reading of the clock; the result, with each article's own timestamps, is what collecting the reads in listing order gives |
| LibGitHubService.GitHubService.ListArticles | lib/services/github.service.ts:130-172 | the result is the listing specification; the folder's request is counted at the first reading of the clock and each markdown file's at the following ones, or only the folder's when the listing fails |
| LibGitHubService.GitHubService.GetArticle | lib/services/github.service.ts:177-207 | one request counted; the result is the single-article specification |
| GithuberService.HandleError | githuber/src/services/github.service.ts:412-459 | with a response: the status and response kept, and a fixed message for 401, 404 and 422, a rate-limit or forbidden message for 403, `GitHub API error: ` and the message otherwise; without one: a network error with no status |
| GithuberService.ClassOf | githuber/src/services/github.service.ts:413-458 | which branch of `handleError` a caught value takes: no response, 401, 403 with or without `rate limit`, 404, 422, or another status |
| GithuberService.HandleErrorClassified | githuber/src/services/github.service.ts:412-459 | the message alone tells which of the seven cases applied |
| GithuberService.ForbiddenOrRateLimited | githuber/src/services/github.service.ts:424-436 | a 403 is rate-limited exactly when the response message mentions `rate limit`, forbidden exactly otherwise |
| GithuberService.NotFoundIff | githuber/src/services/github.service.ts:413-458 | status 404 comes out exactly when the response had it; no status exactly when there was no response |
| GithuberService.ToContent | githuber/src/services/github.service.ts:171-182 | every field copied from the upstream item (`html_url` and `download_url` renamed) |
| GithuberService.Contents | githuber/src/services/github.service.ts:168-182 | a single object becomes a one-element list; a list keeps its length and order |
| GithuberService.ContentOf | githuber/src/services/github.service.ts:152-187 | an answer becomes its content list; a thrown value becomes the classified error |
| GithuberService.FileContentOf | githuber/src/services/github.service.ts:198-211 | fails exactly unless the first entry exists, is a file and has non-empty content; decodes base64 content and returns other content unchanged |
| GithuberService.FetchFile | githuber/src/services/github.service.ts:192-212 | `getFileContent`: the content request, then the file checks; stated by `FetchFileMeaning` |
| GithuberService.FetchFileMeaning | githuber/src/services/github.service.ts:192-212 | an upstream failure is classified; a file with content is read; a directory or an empty list is rejected |
| GithuberService.RepositoryOf | githuber/src/services/github.service.ts:116-146 | `getRepository`: the repository, or the classified error |
| GithuberService.PublicOf | githuber/src/services/github.service.ts:346-356 | `isRepositoryPublic` from what `getRepository` gave; stated by `PublicOfMeaning` |
| GithuberService.PublicOfMeaning | githuber/src/services/github.service.ts:346-356 | `!private` on success; `false` exactly for a 404 failure; any other failure propagates as the classified error |
| GithuberService.AfterTracked | githuber/src/services/github.service.ts:387-397 | the request is counted first; after more than an hour the count then becomes 0 and a new hour starts |
| GithuberService.HourlyBurst | githuber/src/services/github.service.ts:387-397 | `n` requests at one time after the hour ran out leave the count at `n - 1`; within the hour they raise it by `n` |
| GithuberService.StatsOf | githuber/src/services/github.service.ts:402-407 | the statistics report the count and the last reset plus one hour |
| GithuberService.ResetTimeAhead | githuber/src/services/github.service.ts:402-407 | right after a request the reported reset time is not in the past, and a reset reports count 0 an hour ahead |
| GithuberService.GitHubService.constructor | githuber/src/services/github.service.ts:80-81 | the counter starts at 0 with the hour starting at construction time |
| GithuberService.GitHubService.TrackRequest | githuber/src/services/github.service.ts:387-397 | the counter fields move as `AfterTracked` says |
| GithuberService.GitHubService.GetRequestStats | githuber/src/services/github.service.ts:402-407 | reports `count == requestCount` and `resetTime == lastResetTime + 3600000`, changing nothing |
| GithuberService.GitHubService.GetContent | githuber/src/services/github.service.ts:152-187 | one request counted; the answer converted as `ContentOf` says |
| GithuberService.GitHubService.GetFileContent | githuber/src/services/github.service.ts:192-212 | one request counted; the file checks applied to the answer |
| GithuberService.GitHubService.GetRepository | githuber/src/services/github.service.ts:116-147 | one request counted; the repository, or the classified error |
| GithuberService.GitHubService.IsRepositoryPublic | githuber/src/services/github.service.ts:346-356 | one request counted; the visibility as `PublicOfMeaning` describes it |
| MockArticles.Ids | lib/mocks/articles.ts:3-177 | the ids of a list, in order |
| MockArticles.FirstWithId | lib/mocks/articles.ts:184 | `find` stops at the first entry with the id, and finds none exactly when no entry has it |
| MockArticles.FindById | lib/mocks/articles.ts:184 | a found entry has the id and is in the list; none exactly when no entry has the id |
| MockArticles.UniqueWithMockIds | lib/mocks/articles.ts:3-177 | a list whose ids are the five table ids has pairwise distinct ids |
| MockArticles.FindOwnId | lib/mocks/articles.ts:184 | with unique ids, looking up an entry's id finds that entry |
| MockArticles.GetMockArticles | lib/mocks/articles.ts:179-181 | the five entries, ids astro, react, docker, express, mongo in that order |
| MockArticles.GetMockArticle | lib/mocks/articles.ts:183-185 | an entry with the requested id from the table, absent exactly when the id is none of the five |
| MockArticles.MockIdsUnique | lib/mocks/articles.ts:3-177 | the table's ids are pairwise distinct |
| MockArticles.MockSlugIsId | lib/mocks/articles.ts:3-177 | every entry's slug is its id |
| MockArticles.MockFieldsNonEmpty | lib/mocks/articles.ts:3-177 | every entry has a non-empty id, title, slug, excerpt and content |
| MockArticles.MockLookupExact | lib/mocks/articles.ts:183-185 | looking up each entry's id returns that very entry |
| MockArticles.AstroTitle | lib/mocks/articles.ts:5-7 | `astro` is found, titled `Introduction to Astro Framework` |
| ArticleService.ToListItem | lib/services/article.service.ts:11-17 | the list item keeps id, title, slug, excerpt and creation date; stated by `ListItemKeepsFive` |
| ArticleService.ListItemKeepsFive | lib/services/article.service.ts:11-17 | two articles have the same list item exactly when they agree on id, title, slug, excerpt and creation date |
| ArticleService.ListItems | lib/services/article.service.ts:11-17 | one item per article, in the same order |
| ArticleService.ItemIds | lib/services/article.service.ts:12 | the ids of a list of items, in order |
| ArticleService.ListItemsIds | lib/services/article.service.ts:11-17 | the items keep the articles' ids in order |
| ArticleService.GetArticles | lib/services/article.service.ts:9-18 | one item per dataset entry, in the dataset's order, each the projection of its entry |
| ArticleService.GetArticle | lib/services/article.service.ts:25-28 | an entry with that id from the dataset, or `null` exactly when no entry has it; never an error |
| ArticleService.ListedIdResolves | lib/services/article.service.ts:11-27 | with unique ids, the lookup of a listed id finds the entry it was listed from |
| ArticleService.ListedIdsResolve | lib/services/article.service.ts:9-28 | every listed id resolves through `getArticle` to the entry it was listed from |
| LibConfig.ConfigOf | lib/config.ts:6-11 | credentials copied as they are; folder `content` unless a non-empty one is set; the folder is never empty |
| LibConfig.IsGitHubEnabled | lib/config.ts:17-21 | `Boolean(token && owner && repo)`; stated by `EnabledIff` |
| LibConfig.EnabledIff | lib/config.ts:17-21 | enabled exactly when token, owner and repo are each present and non-empty |
| LibConfig.EmptyIsUnset | lib/config.ts:19 | an empty credential has the same effect as an absent one |
| LibConfig.FolderIrrelevant | lib/config.ts:17-21 | the folder plays no part in enablement |
| GithuberConfig.ParseInt | githuber/src/config/github.config.ts:17-18 | `parseInt(s, 10)` is `NaN` exactly when no digit follows the leading whitespace and optional sign |
| GithuberConfig.Unsigned | githuber/src/config/github.config.ts:17-18 | dropping the sign never lengthens the text |
| GithuberConfig.Decimal | githuber/src/config/github.config.ts:17-18 | a numeral is a non-empty run of digits |
| GithuberConfig.DecimalValue | githuber/src/config/github.config.ts:17-18 | a numeral denotes its number |
| GithuberConfig.ParseDecimal | githuber/src/config/github.config.ts:17-18 | `parseInt` reads back any natural number's numeral, ignoring what follows a non-digit |
| GithuberConfig.ParseDigitsAfterSign | githuber/src/config/github.config.ts:17-18 | text with no leading whitespace whose unsigned part is a numeral followed by a non-digit parses to that numeral's value, negated after `-` |
| GithuberConfig.ParseSignedDecimal | githuber/src/config/github.config.ts:17-18 | the same after a sign: `-` negates, `+` does not |
| GithuberConfig.DigitsThenStop | githuber/src/config/github.config.ts:17-18 | in a numeral followed by a non-digit, the digit run is exactly the numeral |
| GithuberConfig.RunEndExact | githuber/src/config/github.config.ts:17-18 | the digit run ends exactly at the first non-digit |
| GithuberConfig.DefaultRateLimitParses | githuber/src/config/github.config.ts:17 | with nothing set, the rate limit is 60 |
| GithuberConfig.DefaultTimeoutParses | githuber/src/config/github.config.ts:18 | with nothing set, the timeout is 30000 |
| GithuberConfig.OutOfRange | githuber/src/config/github.config.ts:28 | a number below 1 or above 100; `NaN` is not out of range, since both comparisons are false |
| GithuberConfig.Clamped | githuber/src/config/github.config.ts:28-33 | an out-of-range value becomes 60 and any other value (in 1..100 or `NaN`) is kept; the result is never out of range, and `NaN` exactly when the input is |
| GithuberConfig.ClampedIdempotent | githuber/src/config/github.config.ts:28-33 | validating twice gives the same rate limit as validating once |
| GithuberConfig.ServiceConfig.constructor | githuber/src/config/github.config.ts:13-19 | token as set; user agent and base URL default when unset or empty; rate limit and timeout parsed from the variable or from `60` and `30000` |
| GithuberConfig.ServiceConfig.Validate | githuber/src/config/github.config.ts:21-36 | the rate limit is clamped in place: an out-of-range one becomes 60, any other is kept, so it is in 1..100 afterwards unless `NaN`; nothing else changes; it warns about the token exactly when it is unset or empty, and about the rate limit exactly when it was out of range |
| ServerGithuberService.BaseUrl | server/src/githuber.service.ts:3-4 | the configured service address, or `http://localhost:3001` when unset or empty; never empty |
| ServerGithuberService.NormalizeItem | server/src/githuber.service.ts:17-22 | name, size and type copied; a non-string name gives the id `''`; a string name gives the id that name with its first `.md` removed |
| ServerGithuberService.NormalizeItems | server/src/githuber.service.ts:17-22 | one normalised entry per upstream entry, in order |
| ServerGithuberService.GetArticles | server/src/githuber.service.ts:6-23 | fails exactly on a non-ok response, with `Failed to fetch articles: ` and the status text; else the normalised list, same length and order |
| ServerGithuberService.FileNameOf | server/src/githuber.service.ts:26 | the file name ends in `.md`, is the name itself exactly when that already did, and otherwise extends it |
| ServerGithuberService.FileNameIdempotent | server/src/githuber.service.ts:26 | completing the extension twice is completing it once |
| ServerGithuberService.SameFileWithOrWithoutSuffix | server/src/githuber.service.ts:26 | asking for `x` and for `x.md` reads the same file |
| ServerGithuberService.GetArticle | server/src/githuber.service.ts:25-44 | fails exactly on a non-ok response, with `Failed to fetch article: ` and the status text; else the file name, the id derived from it, the raw text, its rendering, its length and the type `file` |
| ServerGithuberService.ArticleIdOfPlainName | server/src/githuber.service.ts:25-44 | for a name free of `.md` the returned id is the name, and asking with the extension gives the same answer |
| ServerGithuberService.ListedIdRequestsListedFile | server/src/githuber.service.ts:18-26 | a listed `x.md` gets the id `x`, and asking for that id requests the listed file again |
| ServerGithuberService.EarlierMdWins | server/src/githuber.service.ts:26-37 | for a name `a` + `.md` + `b` not ending in `.md` (with no `.md` in `a`), `getArticle` reads that name plus `.md` and returns the id `a` + `b` + `.md`: the inner `.md` is removed, not the extension (`v1.md-notes` gets `v1-notes.md`) |
| ClientApi.UpperAscii | client/src/services/api.ts:64 | `toUpperCase` maps `a`-`z` to `A`-`Z` and leaves every other character alone |
| ClientApi.Capitalize | client/src/services/api.ts:64 | same length; the first character upper-cased and the rest unchanged; the empty word stays empty |
| ClientApi.CapitalizeAll | client/src/services/api.ts:64 | one capitalised word per piece, in order |
| ClientApi.FormatArticleTitle | client/src/services/api.ts:60-66 | `formatArticleTitle`: the first `.md` removed, the `-`-separated words capitalised and joined with spaces; stated by `FormatMatchesReference` |
| ClientApi.FormatMatchesReference | client/src/services/api.ts:60-66 | the title is as long as the name without its first `.md`, and matches it position by position: `-` becomes a space, a word's first character is upper-cased, the rest is kept |
| ClientApi.NoHyphenInTitle | client/src/services/api.ts:63-65 | no `-` is left in the title |
| ClientApi.SpacesAtHyphens | client/src/services/api.ts:63-65 | the title has a space exactly where the name had a `-` or a space, so consecutive hyphens give consecutive spaces |
| ClientApi.JoinCapitalized | client/src/services/api.ts:63-65 | joining capitalised pieces with spaces is the position-by-position reference applied to the pieces joined with `-` |
| ClientApi.CapitalizedPiece | client/src/services/api.ts:64 | capitalising a hyphen-free piece agrees with the reference on the piece's positions |

## Left out

- I/O is not modelled. The Octokit and `fetch` calls, `response.json()` and
  `response.text()`, and the console output are left out. Their results are parameters;
  the warnings of `validateGitHubConfig` are returned as a list.
- Concurrency is not modelled:
  - the `p-limit` rate limiter;
  - the interleaving of `Promise.all`.
- `Promise.all` rejects with the first rejection in time. `LibGitHubService.ListArticlesMeaning`
  instead reports the first failing file in listing order, and the order of the requests is
  not modelled.
- Base64 decoding (`Buffer.from(..., 'base64')`) and markdown-it rendering with highlight.js
  are parameters. No property of them is assumed.
- The clock (`Date.now`, `new Date().toISOString()`) is a parameter. In `listArticles`
  every tracked request reads its own time (`LibGitHubService.Clock`), and every listed
  article its own two timestamps (`LibGitHubService.Stamps`); which readings these are is
  left open. `getArticle` and the other operations read the clock once per request.
- GithuberService.HandleError: the response's `status` is an integer and the caught
  value's `message` a string. A response without a status, or an error without a
  message, which JavaScript would print as `undefined` in the message, is not modelled.
- MarkdownService.ExtractExcerpt: `maxLength` is a natural number. A negative or
  fractional `maxLength` is not modelled; there JavaScript's `substring(0, maxLength)`
  clamps or truncates it, so a negative one turns any non-empty plain text into `...`.
- MarkdownService.ParseFrontmatter: the dictionary is a plain map. A key `__proto__`,
  which on a JavaScript object would not become an own property, is stored like any
  other key.
- The zod schemas `GitHubContentSchema` and `ErrorResponseSchema` are not part of this model.
  Their parse is taken as given: upstream entries arrive already typed, and an error
  object either carries a parsed response or does not.
- `getRepository` (newer client), `getBranches`, `getCommits`, `searchRepositories`,
  `getTree` and `getRateLimit` only rename fields. They are not modelled, except the
  older client's `getRepository`, which `isRepositoryPublic` needs. Only the owner, name
  and visibility of a repository are kept.
- The HTTP routes (`server/src/server.ts`, `app/api/...`) and the UI are not modelled.
  The copy of `formatArticleTitle` at server/src/server.ts:42-47 is not modelled
  separately.
- `fetchArticles` and `fetchArticleById` are thin axios wrappers; they are not modelled.
- JavaScript numbers are modelled as unbounded integers plus `NaN`. Three things are
  therefore not captured:
  - 64-bit float precision;
  - `-0` (what `parseInt("-0")` gives);
  - numeral prefixes such as `0x`, which `parseInt(s, 10)` does not read anyway.
- String lengths, `size` and `substring` count characters, not UTF-16 code units. They
  differ for characters outside the Basic Multilingual Plane.
- ClientApi.UpperAscii: does not model `toUpperCase` beyond ASCII, because full Unicode
  case mapping can change a string's length (`ß` becomes `SS`). So the length guarantee of
  `ClientApi.FormatMatchesReference` is proved only for this ASCII mapping.
- Repeated calls to the article service giving equal results holds by construction: its
  operations are functions of their arguments, so no lemma states it.
- The frontmatter dictionary holds strings only. The source's type also admits numbers,
  booleans and `null`, but the parser never produces them.
- The module-level configuration objects are modelled as values built from an explicit
  environment. The constructor of the older client (token fallback, user agent, base URL
  for Octokit) is not modelled beyond its counter fields.
