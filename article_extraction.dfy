/**
  How `lib/services/github.service.ts` turns a markdown file into an `Article`
  (the body shared by `listArticles` and `getArticle`): the title is the capture of the
  first match of `/^#\s+(.+)$/m`, the excerpt the first 150 characters of the capture of
  the first match of `/^(?:#{1,6}\s+.+\n+)?(.+)$/m`.

  Both regular expressions are written out as scans that follow the JavaScript engine:
  the leftmost position where a match exists wins, and at that position greedy
  quantifiers are tried from longest to shortest. `\s` includes the line terminators,
  `.` excludes them, and `^` / `$` match at line boundaries.
 */
module ArticleExtraction {
  import opened Wrappers
  import opened JsText
  import opened ArticleTypes

  const ExcerptLimit: nat := 150

  /** `.` can match at position `j`. */
  predicate DotAt(s: String, j: int) {
    0 <= j < |s| && !IsLineTerminator(s[j])
  }

  /** A line of `s` starts at `n` and is not empty. */
  predicate NonEmptyLineAt(s: String, n: nat) {
    AtLineStart(s, n) && DotAt(s, n)
  }

  // ----- /^#\s+(.+)$/m -----

  /** `^#\s+(.+)$` matches at `i` with `\s+` covering `i+1 .. j-1`, so that the capture
      starts at `j` (it then runs to the end of that line). */
  predicate TitleMatch(s: String, i: nat, j: nat) {
    && AtLineStart(s, i) && i < |s| && s[i] == '#'
    && i + 1 < j && DotAt(s, j)
    && (forall k :: i + 1 <= k < j ==> IsSpace(s[k]))
  }

  /** Backtracking a greedy quantifier: the largest `j` in `lo .. top-1` where `.` matches. */
  function LastDotBelow(s: String, lo: nat, top: nat): (r: Option<nat>)
    ensures r.Some? ==> lo <= r.value < top && DotAt(s, r.value)
    ensures r.Some? ==> forall j :: r.value < j < top ==> !DotAt(s, j)
    ensures r.None? ==> forall j :: lo <= j < top ==> !DotAt(s, j)
    decreases top
  {
    if top <= lo then None
    else if DotAt(s, top - 1) then Some(top - 1)
    else LastDotBelow(s, lo, top - 1)
  }

  /** The title regex tried at position `i`: where its capture starts, for the longest
      `\s+` that lets `(.+)` match. */
  function TitleCaptureAt(s: String, i: nat): (r: Option<nat>)
    requires i <= |s|
    ensures r.Some? ==> TitleMatch(s, i, r.value)
    ensures r.Some? ==> forall j :: r.value < j ==> !TitleMatch(s, i, j)
    ensures r.None? ==> forall j :: !TitleMatch(s, i, j)
  {
    if AtLineStart(s, i) && i < |s| && s[i] == '#' then
      var spaceEnd := RunEnd(s, i + 1, IsSpace);
      var r := if spaceEnd == i + 1 then None else LastDotBelow(s, i + 2, spaceEnd + 1);
      assert forall j :: j > spaceEnd && TitleMatch(s, i, j) ==> IsSpace(s[spaceEnd]);
      r
    else None
  }

  /** `content.match(/^#\s+(.+)$/m)`: the leftmost match at or after `i`, as the pair
      (match start, capture start). */
  function FirstTitleFrom(s: String, i: nat): (r: Option<(nat, nat)>)
    requires i <= |s|
    ensures r.Some? ==> i <= r.value.0 && TitleMatch(s, r.value.0, r.value.1)
    ensures r.Some? ==> forall j :: r.value.1 < j ==> !TitleMatch(s, r.value.0, j)
    ensures r.Some? ==> forall i', j :: i <= i' < r.value.0 ==> !TitleMatch(s, i', j)
    ensures r.None? ==> forall i', j :: i <= i' ==> !TitleMatch(s, i', j)
    decreases |s| - i
  {
    match TitleCaptureAt(s, i)
    case Some(j) => Some((i, j))
    case None => if i == |s| then None else FirstTitleFrom(s, i + 1)
  }

  /** The article title: the capture of the first title match, else the id. */
  function Title(content: String, id: String): String {
    match FirstTitleFrom(content, 0)
    case None => id
    case Some((_, j)) => content[j..LineEnd(content, j)]
  }

  /** Without a title match the title is the id; with one it is the capture of the
      leftmost match, taken with the longest `\s+`: a non-empty rest of a line. */
  lemma TitleMeaning(content: String, id: String)
    ensures (forall i, j :: !TitleMatch(content, i, j)) ==> Title(content, id) == id
    ensures (exists i, j :: TitleMatch(content, i, j)) ==>
              exists i: nat, j: nat :: && TitleMatch(content, i, j)
                             && (forall i': nat, j': nat :: i' < i ==> !TitleMatch(content, i', j'))
                             && (forall j': nat :: j < j' ==> !TitleMatch(content, i, j'))
                             && Title(content, id) == content[j..LineEnd(content, j)]
    ensures (exists i, j :: TitleMatch(content, i, j)) ==>
              var r := Title(content, id);
              r != [] && forall k :: 0 <= k < |r| ==> !IsLineTerminator(r[k])
  {
    match FirstTitleFrom(content, 0)
    case None =>
    case Some((i, j)) =>
      assert Title(content, id) == content[j..LineEnd(content, j)];
      assert TitleMatch(content, i, j);
      CaptureIsLine(content, j);
  }

  /** A capture `(.+)$` started where `.` matches is a non-empty text inside one line. */
  lemma CaptureIsLine(s: String, j: nat)
    requires DotAt(s, j)
    ensures var r := s[j..LineEnd(s, j)];
            r != [] && forall k :: 0 <= k < |r| ==> !IsLineTerminator(r[k])
  {
    var r := s[j..LineEnd(s, j)];
    assert r[0] == s[j];
  }

  // ----- /^(?:#{1,6}\s+.+\n+)?(.+)$/m -----

  /** After `\s+` has ended at `m`: `.+` covers `m .. e-1`, `\n+` covers `e .. n-1`, and
      `(.+)` can start at `n`. */
  predicate HeadingTail(s: String, m: nat, e: nat, n: nat) {
    && m < e < n < |s|
    && (forall k :: m <= k < e ==> !IsLineTerminator(s[k]))
    && (forall k :: e <= k < n ==> s[k] == '\n')
    && !IsLineTerminator(s[n])
  }

  /** The optional group `#{1,6}\s+.+\n+` matches at `i`, with `#{1,6}` covering
      `i .. h-1` and `\s+` covering `h .. m-1`, and `(.+)` can start at `n` after it. */
  predicate HeadingGroup(s: String, i: nat, h: nat, m: nat, e: nat, n: nat) {
    && HeadingTail(s, m, e, n)
    && i < h <= i + 6 && h < m
    && (forall k :: i <= k < h ==> s[k] == '#')
    && (forall k :: h <= k < m ==> IsSpace(s[k]))
  }

  /** `.+\n+(.+)` tried once `\s+` has ended at `m`. `.+` has to run to the end of the
      line and `\n+` over every newline that follows, because the character either would
      leave next is one that `\n` or `.` refuses: there is at most one way to match. */
  function TailCapture(s: String, m: nat): (r: Option<nat>)
    ensures r.Some? ==> m < |s| && HeadingTail(s, m, LineEnd(s, m), r.value)
    ensures forall e: nat, n: nat :: HeadingTail(s, m, e, n) ==> r == Some(n)
  {
    HeadingTailDetermined(s, m);
    if DotAt(s, m) then
      var e := LineEnd(s, m);
      if e < |s| && s[e] == '\n' then
        var n := CharRunEnd(s, e, '\n');
        if DotAt(s, n) then Some(n) else None
      else None
    else None
  }

  /** `.+` ends at the end of the line and `\n+` at the end of the run of newlines. */
  lemma HeadingTailDetermined(s: String, m: nat)
    ensures forall e: nat, n: nat :: HeadingTail(s, m, e, n) ==>
              m < |s| && e == LineEnd(s, m) && e < |s| && n == CharRunEnd(s, e, '\n')
  {
    forall e: nat, n: nat | HeadingTail(s, m, e, n)
      ensures m < |s| && e == LineEnd(s, m) && e < |s| && n == CharRunEnd(s, e, '\n')
    {
      var lineEnd := LineEnd(s, m);
      var runEnd := CharRunEnd(s, e, '\n');
    }
  }

  /** Backtracking the greedy `\s+`: the largest end `m` in `lo .. top-1` after which the
      rest of the group and `(.+)` match. */
  function HeadingSpaceEnd(s: String, lo: nat, top: nat): (r: Option<nat>)
    ensures r.Some? ==> lo <= r.value < top && TailCapture(s, r.value).Some?
    ensures r.Some? ==> forall m :: r.value < m < top ==> TailCapture(s, m).None?
    ensures r.None? ==> forall m :: lo <= m < top ==> TailCapture(s, m).None?
    decreases top
  {
    if top <= lo then None
    else if TailCapture(s, top - 1).Some? then Some(top - 1)
    else HeadingSpaceEnd(s, lo, top - 1)
  }

  /** Every way the group can match at `i` takes the whole run of `#` (the next character
      must be `\s`, which `#` is not) and ends `\s+` inside the run of whitespace after it;
      the end of `\s+` then fixes the rest of the match. */
  lemma HeadingGroupDetermined(s: String, i: nat)
    requires i < |s|
    ensures forall h: nat, m: nat, e: nat, n: nat :: HeadingGroup(s, i, h, m, e, n) ==>
              && s[i] == '#' && h == CharRunEnd(s, i, '#')
              && h < m <= SpaceRunEnd(s, h) && TailCapture(s, m) == Some(n)
  {
    forall h: nat, m: nat, e: nat, n: nat | HeadingGroup(s, i, h, m, e, n)
      ensures s[i] == '#' && h == CharRunEnd(s, i, '#')
      ensures h < m <= SpaceRunEnd(s, h) && TailCapture(s, m) == Some(n)
    {
      var hashEnd := CharRunEnd(s, i, '#');
      var spaceEnd := SpaceRunEnd(s, h);
    }
  }

  /** The group `#{1,6}\s+.+\n+` tried at `i`: the start of the capture after it, taking
      the longest `\s+` for which the rest matches, or none when the group cannot match;
      `HeadedCaptureAtMeaning` states this. */
  function HeadedCaptureAt(s: String, i: nat): (r: Option<nat>)
    requires i < |s|
    ensures r.Some? ==> s[i] == '#' && i < r.value && AtLineStart(s, r.value) && DotAt(s, r.value)
  {
    if s[i] != '#' then None
    else
      var hashEnd := CharRunEnd(s, i, '#');
      if hashEnd - i > 6 then None
      else
        var spaceEnd := SpaceRunEnd(s, hashEnd);
        if spaceEnd == hashEnd then None
        else
          match HeadingSpaceEnd(s, hashEnd + 1, spaceEnd + 1)
          case None => None
          case Some(m) => TailCapture(s, m)
  }

  /** The group matches at `i` exactly when `HeadedCaptureAt` finds a capture, and the
      capture is the one after the match with the longest `\s+`. */
  lemma HeadedCaptureAtMeaning(s: String, i: nat)
    requires i < |s|
    ensures var r := HeadedCaptureAt(s, i);
            r.Some? ==> exists h: nat, m: nat, e: nat ::
                          && HeadingGroup(s, i, h, m, e, r.value)
                          && forall h': nat, m': nat, e': nat, n': nat :: HeadingGroup(s, i, h', m', e', n') ==> m' <= m
    ensures HeadedCaptureAt(s, i).None? ==> forall h: nat, m: nat, e: nat, n: nat :: !HeadingGroup(s, i, h, m, e, n)
  {
    if HeadedCaptureAt(s, i).Some? {
      HeadedCaptureFound(s, i);
    } else {
      HeadedCaptureMissing(s, i);
    }
  }

  /** A capture found by `HeadedCaptureAt` comes after a match of the group that no other
      match outdoes in the length of `\s+`. */
  lemma HeadedCaptureFound(s: String, i: nat)
    requires i < |s| && HeadedCaptureAt(s, i).Some?
    ensures exists h: nat, m: nat, e: nat ::
              && HeadingGroup(s, i, h, m, e, HeadedCaptureAt(s, i).value)
              && forall h': nat, m': nat, e': nat, n': nat :: HeadingGroup(s, i, h', m', e', n') ==> m' <= m
  {
    var hashEnd := CharRunEnd(s, i, '#');
    var spaceEnd := SpaceRunEnd(s, hashEnd);
    var m := HeadingSpaceEnd(s, hashEnd + 1, spaceEnd + 1).value;
    var n := TailCapture(s, m).value;
    assert HeadedCaptureAt(s, i) == Some(n);
    assert HeadingGroup(s, i, hashEnd, m, LineEnd(s, m), n);
    HeadingGroupDetermined(s, i);
  }

  /** When `HeadedCaptureAt` finds nothing, the group cannot match at `i` at all. */
  lemma HeadedCaptureMissing(s: String, i: nat)
    requires i < |s| && HeadedCaptureAt(s, i).None?
    ensures forall h: nat, m: nat, e: nat, n: nat :: !HeadingGroup(s, i, h, m, e, n)
  {
    HeadingGroupDetermined(s, i);
  }

  /** The excerpt regex tried at `i`: the group first, then without it. It matches exactly
      where a non-empty line starts. A line that does not start with `#` is its own
      capture; `ExcerptCaptureAtGroup` says where the capture of the others is. */
  function ExcerptCaptureAt(s: String, i: nat): (r: Option<nat>)
    ensures r.Some? <==> NonEmptyLineAt(s, i)
    ensures r.Some? ==> i <= r.value && NonEmptyLineAt(s, r.value)
    ensures NonEmptyLineAt(s, i) && s[i] != '#' ==> r == Some(i)
  {
    if AtLineStart(s, i) && i < |s| then
      match HeadedCaptureAt(s, i)
      case Some(n) => Some(n)
      case None => if DotAt(s, i) then Some(i) else None
    else None
  }

  /** Where the excerpt regex captures: the line at `i` itself when the group cannot match
      there, and otherwise the line that the group with the longest `\s+` leads to. */
  lemma ExcerptCaptureAtGroup(s: String, i: nat)
    ensures NonEmptyLineAt(s, i) && (forall h: nat, m: nat, e: nat, n: nat :: !HeadingGroup(s, i, h, m, e, n)) ==>
              ExcerptCaptureAt(s, i) == Some(i)
    ensures AtLineStart(s, i) && (exists h: nat, m: nat, e: nat, n: nat :: HeadingGroup(s, i, h, m, e, n)) ==>
              && ExcerptCaptureAt(s, i).Some?
              && exists h: nat, m: nat, e: nat :: && HeadingGroup(s, i, h, m, e, ExcerptCaptureAt(s, i).value)
                                                  && forall h': nat, m': nat, e': nat, n': nat ::
                                                       HeadingGroup(s, i, h', m', e', n') ==> m' <= m
  {
    if i < |s| {
      HeadedCaptureAtMeaning(s, i);
    }
  }

  /** The scan of `content.match` from `i` on: the leftmost position where the excerpt
      regex matches. By `ExcerptCaptureAt`, that is the first non-empty line. */
  function FirstExcerptFrom(s: String, i: nat): (r: Option<nat>)
    requires i <= |s|
    ensures r.None? <==> forall n :: i <= n ==> !NonEmptyLineAt(s, n)
    ensures r.Some? ==> i <= r.value && NonEmptyLineAt(s, r.value)
    ensures r.Some? ==> forall k :: i <= k < r.value ==> !NonEmptyLineAt(s, k)
    decreases |s| - i
  {
    if i == |s| then None
    else if NonEmptyLineAt(s, i) then Some(i)
    else FirstExcerptFrom(s, i + 1)
  }

  /** `substring(0, n)`. */
  function Prefix(s: String, n: nat): (r: String)
    ensures |r| <= n && |r| <= |s| && r == s[..|r|]
    ensures |s| <= n ==> r == s
  {
    if |s| <= n then s else s[..n]
  }

  /** The excerpt: at most 150 characters of the first excerpt capture, else empty. */
  function Excerpt(content: String): (r: String)
    ensures |r| <= ExcerptLimit
  {
    match FirstExcerptFrom(content, 0)
    case None => []
    case Some(m) =>
      var n := ExcerptCaptureAt(content, m).value;
      Prefix(content[n..LineEnd(content, n)], ExcerptLimit)
  }

  /** The excerpt is taken from the start of one whole non-empty line of the content,
      and is empty only when the content has no non-empty line. */
  lemma ExcerptMeaning(content: String)
    ensures Excerpt(content) == [] <==> forall n :: !NonEmptyLineAt(content, n)
  {
    match FirstExcerptFrom(content, 0)
    case None =>
    case Some(m) =>
      var n := ExcerptCaptureAt(content, m).value;
      var line := content[n..LineEnd(content, n)];
      assert line[0] == content[n];
  }

  /** The excerpt is the first 150 characters of the capture for the first non-empty line
      `m`: that line itself, or, when a heading group starts there, the line it leads to. */
  lemma ExcerptOfFirstLine(content: String, m: nat)
    requires NonEmptyLineAt(content, m)
    requires forall k: nat :: k < m ==> !NonEmptyLineAt(content, k)
    ensures ExcerptCaptureAt(content, m).Some?
    ensures var n := ExcerptCaptureAt(content, m).value;
            Excerpt(content) == Prefix(content[n..LineEnd(content, n)], ExcerptLimit)
  {
    var m' := FirstExcerptFrom(content, 0).value;
    assert m' == m;
  }

  /** At a line start where the group can match with `\s+` taking all the whitespace
      after the `#` run, the capture starts where that group leads. */
  lemma WidestHeadingGroupCaptured(s: String, i: nat, h: nat, m: nat, e: nat, n: nat)
    requires AtLineStart(s, i) && HeadingGroup(s, i, h, m, e, n)
    requires !IsSpace(s[m])
    ensures ExcerptCaptureAt(s, i) == Some(n)
  {
    HeadingGroupDetermined(s, i);
    ExcerptCaptureAtGroup(s, i);
    var r := ExcerptCaptureAt(s, i);
    var h2: nat, m2: nat, e2: nat :| && HeadingGroup(s, i, h2, m2, e2, r.value)
                                     && forall h': nat, m': nat, e': nat, n': nat :: HeadingGroup(s, i, h', m', e', n') ==> m' <= m2;
    assert m <= m2;
    assert SpaceRunEnd(s, h) == m;
  }

  /** Content that opens with a heading group whose `\s+` takes all the whitespace after
      the `#` run: the excerpt is taken from the line the group leads to. */
  lemma ExcerptAfterHeadingGroup(s: String, h: nat, m: nat, e: nat, n: nat)
    requires HeadingGroup(s, 0, h, m, e, n)
    requires !IsSpace(s[m])
    ensures Excerpt(s) == Prefix(s[n..LineEnd(s, n)], ExcerptLimit)
  {
    WidestHeadingGroupCaptured(s, 0, h, m, e, n);
    ExcerptOfFirstLine(s, 0);
  }

  /** A title line `# t`, a blank line and a body line `b`, the layout the excerpt is
      meant for: the excerpt is the start of `b`, the first paragraph after the title. */
  lemma ExcerptAfterTitle(t: String, b: String)
    requires t != [] && !IsSpace(t[0]) && forall k :: 0 <= k < |t| ==> !IsLineTerminator(t[k])
    requires b != [] && forall k :: 0 <= k < |b| ==> !IsLineTerminator(b[k])
    ensures Excerpt("# " + t + "\n\n" + b) == Prefix(b, ExcerptLimit)
  {
    var s := "# " + t + "\n\n" + b;
    var n := |t| + 4;
    assert HeadingGroup(s, 0, 1, 2, |t| + 2, n) by {
      assert forall k :: 2 <= k < |t| + 2 ==> s[k] == t[k - 2];
    }
    assert s[2] == t[0];
    ExcerptAfterHeadingGroup(s, 1, 2, |t| + 2, n);
    assert LineEnd(s, n) == |s| by {
      assert forall k :: n <= k < |s| ==> s[k] == b[k - n];
    }
    assert s[n..] == b;
  }

  /** The `Article` built from an id and the decoded file text; `createdAt` and
      `updatedAt` are the two clock readings taken while building it. */
  function ExtractArticle(id: String, content: String, createdAt: String, updatedAt: String): (a: Article)
    ensures a.id == id && a.slug == id && a.content == content
    ensures a.title == Title(content, id) && a.excerpt == Excerpt(content)
    ensures |a.excerpt| <= ExcerptLimit
    ensures a.createdAt == createdAt && a.updatedAt == updatedAt
  {
    Article(id, Title(content, id), id, content, Excerpt(content), createdAt, updatedAt)
  }
}
