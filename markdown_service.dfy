/**
  `lib/services/markdown.service.ts`: frontmatter splitting and parsing, HTML rendering
  of the body (the renderer itself is a parameter), the plain-text excerpt and the
  reading-time estimate.
 */
module MarkdownService {
  import opened Wrappers
  import opened JsText

  /** The closing fence of a frontmatter block, with the newlines around it. */
  const Fence: String := "\n---\n"

  /** The opening fence, which must begin the document. */
  const OpeningFence: String := "---\n"

  // ----- /^---\n([\s\S]*?)\n---\n([\s\S]*)$/ -----

  /** A header text that the lazy `([\s\S]*?)` would not cut short: no closing fence
      starts inside it. */
  predicate HeaderFenceFree(header: String) {
    forall j :: 0 <= j < |header| ==> !OccursAt(header + Fence, Fence, j)
  }

  /** The document made of a header and a body. */
  function Compose(header: String, body: String): String {
    OpeningFence + header + Fence + body
  }

  /** `content.match(frontmatterRegex)`: the header and the body, split at the first
      closing fence found after the opening one. */
  function SplitFrontmatter(s: String): (r: Option<(String, String)>)
    ensures r.Some? ==> s == Compose(r.value.0, r.value.1) && HeaderFenceFree(r.value.0)
    ensures r.None? ==> !(|s| >= 4 && s[..4] == OpeningFence && exists k :: k >= 4 && OccursAt(s, Fence, k))
  {
    if |s| >= 4 && s[..4] == OpeningFence then
      match IndexOfFrom(s, Fence, 4)
      case None => None
      case Some(k) =>
        var header := s[4..k];
        assert s == Compose(header, s[k + 5..]);
        assert HeaderFenceFree(header) by {
          forall j | 0 <= j < |header|
            ensures !OccursAt(header + Fence, Fence, j)
          {
            assert (header + Fence)[j..j + 5] == s[j + 4..j + 9];
            assert !OccursAt(s, Fence, j + 4);
          }
        }
        Some((header, s[k + 5..]))
    else None
  }

  /** Splitting undoes composing whenever the header is fence-free, so every such
      (header, body) pair is recognised. */
  lemma SplitCompose(header: String, body: String)
    requires HeaderFenceFree(header)
    ensures SplitFrontmatter(Compose(header, body)) == Some((header, body))
  {
    var s := Compose(header, body);
    var k := 4 + |header|;
    assert s[..4] == OpeningFence;
    assert s[k..k + 5] == Fence;
    forall j | 4 <= j < k
      ensures !OccursAt(s, Fence, j)
    {
      assert (header + Fence)[j - 4..j + 1] == s[j..j + 5];
      assert !OccursAt(header + Fence, Fence, j - 4);
    }
    assert OccursAt(s, Fence, k);
    assert IndexOfFrom(s, Fence, 4) == Some(k);
    assert s[4..k] == header && s[k + 5..] == body;
  }

  /** Two fences with nothing between them are no frontmatter: the closing fence needs
      a newline of its own before it, so the block is recognised exactly when a closing
      fence follows in the newline-prefixed rest. */
  lemma {:induction false} EmptyBlockIsNotFrontmatter(body: String)
    ensures SplitFrontmatter("---\n---\n" + body) == None <==> forall j :: !OccursAt("\n" + body, Fence, j)
  {
    var s := "---\n---\n" + body;
    var t := "\n" + body;
    assert s[7..] == t;
    forall j | OccursAt(t, Fence, j)
      ensures SplitFrontmatter(s).Some?
    {
      assert s[j + 7..j + 12] == t[j..j + 5];
      assert OccursAt(s, Fence, j + 7);
    }
    if forall j :: !OccursAt(t, Fence, j) {
      forall k | k >= 4
        ensures !OccursAt(s, Fence, k)
      {
        if 7 <= k && k + 5 <= |s| {
          assert s[k..k + 5] == t[k - 7..k - 2];
          assert !OccursAt(t, Fence, k - 7);
        } else if k + 5 <= |s| {
          assert s[k..k + 5][0] == '-';
        }
      }
    }
  }

  /** The empty block of the test suite: no frontmatter, the whole text is the content. */
  lemma EmptyBlockExample()
    ensures ParseFrontmatterSpec("---\n---\n\nContent") == Parsed(None, "---\n---\n\nContent")
  {
    var body := "\nContent";
    NoFenceWithoutDash("\n" + body);
    EmptyBlockIsNotFrontmatter(body);
    assert "---\n---\n" + body == "---\n---\n\nContent";
  }

  /** A text without a `-` holds no closing fence. */
  lemma NoFenceWithoutDash(t: String)
    requires '-' !in t
    ensures forall j :: !OccursAt(t, Fence, j)
  {
    forall j
      ensures !OccursAt(t, Fence, j)
    {
      if 0 <= j && j + 5 <= |t| {
        assert t[j..j + 5][1] == t[j + 1];
      }
    }
  }

  /** The markdown that follows the frontmatter, or the whole input when there is none. */
  function BodyOf(content: String): (r: String)
    ensures SplitFrontmatter(content).None? ==> r == content
    ensures SplitFrontmatter(content).Some? ==> content == Compose(SplitFrontmatter(content).value.0, r)
  {
    match SplitFrontmatter(content)
    case None => content
    case Some((_, body)) => body
  }

  // ----- the `key: value` lines -----

  predicate IsQuote(c: char) { c == '"' || c == '\'' }

  /** `value.replace(/^["']|["']$/g, '')`: one leading quote and one trailing quote go;
      a one-character quote is removed once. */
  function StripQuotes(v: String): (r: String)
    ensures |v| >= 2 ==> r == v[(if IsQuote(v[0]) then 1 else 0)..(if IsQuote(v[|v| - 1]) then |v| - 1 else |v|)]
    ensures |v| == 1 ==> r == (if IsQuote(v[0]) then [] else v)
    ensures |v| == 0 ==> r == []
  {
    var start := if |v| > 0 && IsQuote(v[0]) then 1 else 0;
    if |v| > start && IsQuote(v[|v| - 1]) then v[start..|v| - 1] else v[start..]
  }

  /** One header line, `const [key, ...rest] = line.split(':')`: an entry when `key` is
      not empty and there is a `rest`. */
  function LineEntry(line: String): Option<(String, String)> {
    var parts := SplitOn(line, ':');
    if parts[0] != [] && |parts| > 1 then
      Some((Trim(parts[0]), StripQuotes(Trim(Join(parts[1..], ':')))))
    else None
  }

  /** What a line with its first `:` at index `c` means: no entry when `c` is 0, otherwise
      the trimmed text before `c` as key and everything after `c`, later colons kept,
      trimmed and unquoted, as value. */
  lemma LineEntryAtColon(line: String, c: nat)
    requires c < |line| && line[c] == ':' && ':' !in line[..c]
    ensures LineEntry(line) == if c == 0 then None else Some((Trim(line[..c]), StripQuotes(Trim(line[c + 1..]))))
  {
    assert line == line[..c] + [':'] + line[c + 1..];
    SplitOnPrefix(line[..c], line[c + 1..], ':');
    var parts := SplitOn(line, ':');
    assert parts[0] == line[..c] && parts[1..] == SplitOn(line[c + 1..], ':');
  }

  /** A line without `:` gives no entry. */
  lemma LineEntryNoColon(line: String)
    requires ':' !in line
    ensures LineEntry(line) == None
  {
    SplitOnFree(line, ':');
  }

  /** The entry of every header line, in order. */
  function LineEntries(lines: seq<String>): (r: seq<Option<(String, String)>>)
    ensures |r| == |lines| && forall i :: 0 <= i < |lines| ==> r[i] == LineEntry(lines[i])
  {
    seq(|lines|, i requires 0 <= i < |lines| => LineEntry(lines[i]))
  }

  /** The dictionary built from the entries in order: later entries overwrite earlier
      ones with the same key. */
  function Entries(entries: seq<Option<(String, String)>>): map<String, String>
    decreases |entries|
  {
    if entries == [] then map[]
    else
      var m := Entries(entries[..|entries| - 1]);
      match entries[|entries| - 1]
      case None => m
      case Some((k, v)) => m[k := v]
  }

  predicate DefinesKey(entry: Option<(String, String)>, key: String) {
    entry.Some? && entry.value.0 == key
  }

  /** The index of the last entry that defines `key`. */
  function LastDefinition(entries: seq<Option<(String, String)>>, key: String): (r: Option<nat>)
    ensures r.Some? ==> r.value < |entries| && DefinesKey(entries[r.value], key)
    ensures r.Some? ==> forall i :: r.value < i < |entries| ==> !DefinesKey(entries[i], key)
    ensures r.None? ==> forall i :: 0 <= i < |entries| ==> !DefinesKey(entries[i], key)
    decreases |entries|
  {
    if entries == [] then None
    else if DefinesKey(entries[|entries| - 1], key) then Some(|entries| - 1)
    else LastDefinition(entries[..|entries| - 1], key)
  }

  /** A key is in the dictionary exactly when some entry defines it, and its value comes
      from the last entry that does. */
  lemma {:induction false} EntriesMeaning(entries: seq<Option<(String, String)>>, key: String)
    ensures key in Entries(entries) <==> LastDefinition(entries, key).Some?
    ensures key in Entries(entries) ==> Entries(entries)[key] == entries[LastDefinition(entries, key).value].value.1
    decreases |entries|
  {
    if entries != [] {
      var init := entries[..|entries| - 1];
      EntriesMeaning(init, key);
      if !DefinesKey(entries[|entries| - 1], key) && key in Entries(init) {
        assert entries[LastDefinition(init, key).value] == init[LastDefinition(init, key).value];
      }
    }
  }

  /** One more entry updates the dictionary built from the ones before it. */
  lemma EntriesStep(entries: seq<Option<(String, String)>>, i: nat)
    requires i < |entries|
    ensures entries[i].None? ==> Entries(entries[..i + 1]) == Entries(entries[..i])
    ensures entries[i].Some? ==> Entries(entries[..i + 1]) == Entries(entries[..i])[entries[i].value.0 := entries[i].value.1]
  {
    assert entries[..i + 1][..i] == entries[..i];
  }

  /** The result of `parseFrontmatter`: the dictionary (absent when the fences do not
      match) and the markdown body. */
  datatype Parsed = Parsed(frontmatter: Option<map<String, String>>, content: String)

  /** What `parseFrontmatter` returns, as a function of its input. */
  function ParseFrontmatterSpec(content: String): Parsed {
    match SplitFrontmatter(content)
    case None => Parsed(None, content)
    case Some((header, body)) => Parsed(Some(Entries(LineEntries(SplitOn(header, '\n')))), body)
  }

  /** `parseFrontmatter`: the loop that fills the dictionary line by line. */
  method ParseFrontmatter(content: String) returns (r: Parsed)
    ensures r == ParseFrontmatterSpec(content)
  {
    match SplitFrontmatter(content)
    case None =>
      r := Parsed(None, content);
    case Some((header, body)) =>
      var lines := SplitOn(header, '\n');
      ghost var entries := LineEntries(lines);
      var frontmatter: map<String, String> := map[];
      var i := 0;
      while i < |lines|
        invariant 0 <= i <= |lines|
        invariant frontmatter == Entries(entries[..i])
      {
        var parts := SplitOn(lines[i], ':');
        if parts[0] != [] && |parts| > 1 {
          var key := Trim(parts[0]);
          var value := StripQuotes(Trim(Join(parts[1..], ':')));
          assert entries[i] == Some((key, value));
          frontmatter := frontmatter[key := value];
        } else {
          assert entries[i] == None;
        }
        EntriesStep(entries, i);
        i := i + 1;
      }
      assert entries[..i] == entries;
      r := Parsed(Some(frontmatter), body);
  }

  /** Without a frontmatter match there is no dictionary and the body is the input. With
      one there always is a dictionary, possibly empty, holding exactly the keys the
      header lines define, each with the value of the last line defining it. */
  lemma ParseFrontmatterMeaning(content: String, key: String)
    ensures SplitFrontmatter(content).None? ==> ParseFrontmatterSpec(content) == Parsed(None, content)
    ensures SplitFrontmatter(content).Some? ==>
              var lines := SplitOn(SplitFrontmatter(content).value.0, '\n');
              var fm := ParseFrontmatterSpec(content).frontmatter;
              var last := LastDefinition(LineEntries(lines), key);
              && fm.Some?
              && ParseFrontmatterSpec(content).content == BodyOf(content)
              && (key in fm.value <==> last.Some?)
              && (key in fm.value ==> fm.value[key] == LineEntry(lines[last.value]).value.1)
  {
    if SplitFrontmatter(content).Some? {
      EntriesMeaning(LineEntries(SplitOn(SplitFrontmatter(content).value.0, '\n')), key);
    }
  }

  /** The rendered document: HTML of the body and the frontmatter dictionary. */
  datatype ParsedMarkdown = ParsedMarkdown(html: String, frontmatter: Option<map<String, String>>)

  /** `markdownToHtml`, with markdown-it's `render` as a parameter: only the body is
      rendered. */
  method MarkdownToHtml(content: String, render: String -> String) returns (r: ParsedMarkdown)
    ensures r.html == render(BodyOf(content))
    ensures r.frontmatter == ParseFrontmatterSpec(content).frontmatter
  {
    var parsed := ParseFrontmatter(content);
    r := ParsedMarkdown(render(parsed.content), parsed.frontmatter);
  }

  // ----- extractExcerpt: the replace chain -----

  /** Where a match of `/^#+\s+/m` that starts at `i` ends: `i` is a line start, a run
      of `#` begins there, and at least one whitespace character follows it; the match
      takes all of that whitespace. */
  function HeadingPrefixEnd(s: String, i: nat): (r: Option<nat>)
    requires i <= |s|
    ensures r.Some? ==> i < r.value <= |s| && AtLineStart(s, i) && s[i] == '#'
    ensures i < |s| && s[i] != '#' ==> r.None?
  {
    if i < |s| && AtLineStart(s, i) && s[i] == '#' then
      var hashEnd := CharRunEnd(s, i, '#');
      if hashEnd < |s| && IsSpace(s[hashEnd]) then Some(SpaceRunEnd(s, hashEnd)) else None
    else None
  }

  /** `.replace(/^#+\s+/gm, '')` from `i` on: a run of `#` at a line start followed by
      whitespace (newlines included) is dropped with all of that whitespace. */
  function RemoveHeadingsFrom(s: String, i: nat): (r: String)
    requires i <= |s|
    ensures |r| <= |s| - i
    decreases |s| - i
  {
    if i == |s| then []
    else
      match HeadingPrefixEnd(s, i)
      case Some(e) => RemoveHeadingsFrom(s, e)
      case None =>
        [s[i]] + RemoveHeadingsFrom(s, i + 1)
  }

  /** Where a heading prefix starts, it is dropped and the rest goes on after it. */
  lemma HeadingDropped(s: String, i: nat, e: nat)
    requires i < |s| && HeadingPrefixEnd(s, i) == Some(e)
    ensures RemoveHeadingsFrom(s, i) == RemoveHeadingsFrom(s, e)
  {
  }

  /** Where no heading prefix starts, the character is kept. */
  lemma NoHeadingKept(s: String, i: nat)
    requires i < |s| && HeadingPrefixEnd(s, i).None?
    ensures RemoveHeadingsFrom(s, i) == [s[i]] + RemoveHeadingsFrom(s, i + 1)
  {
  }

  /** A stretch without `#` passes through unchanged. */
  lemma {:induction false} HashFreeKept(s: String, i: nat, j: nat)
    requires i <= j <= |s|
    requires forall k :: i <= k < j ==> s[k] != '#'
    ensures RemoveHeadingsFrom(s, i) == s[i..j] + RemoveHeadingsFrom(s, j)
    decreases j - i
  {
    if i < j {
      var after := RemoveHeadingsFrom(s, j);
      NoHeadingKept(s, i);
      HashFreeKept(s, i + 1, j);
      SliceCons(s, i, j, after);
    }
  }

  /** Text without `#` from `i` on is left as it is. */
  lemma HashFreeUnchanged(s: String, i: nat)
    requires i <= |s| && NoneFrom(s, i, '#')
    ensures RemoveHeadingsFrom(s, i) == s[i..]
  {
    HashFreeKept(s, i, |s|);
    assert s[i..|s|] == s[i..];
  }

  /** A heading line at `i`: the `#` run `s[i..m]` and the whitespace `s[m..j]` are
      dropped, and its text up to `n`, free of `#`, is kept. */
  lemma HeadingLineAt(s: String, i: nat, m: nat, j: nat, n: nat)
    requires i < m < j <= n <= |s| && AtLineStart(s, i)
    requires forall k :: i <= k < m ==> s[k] == '#'
    requires forall k :: m <= k < j ==> IsSpace(s[k])
    requires j == |s| || !IsSpace(s[j])
    requires forall k :: j <= k < n ==> s[k] != '#'
    ensures RemoveHeadingsFrom(s, i) == s[j..n] + RemoveHeadingsFrom(s, n)
  {
    CharRunEndAt(s, i, m, '#');
    SpaceRunEndAt(s, m, j);
    HeadingDropped(s, i, j);
    HashFreeKept(s, j, n);
  }

  /** A single heading line loses its `#` run and the whitespace after it; its text
      stays. */
  lemma HeadingLineDropped(h: String, w: String, t: String)
    requires h != [] && forall k :: 0 <= k < |h| ==> h[k] == '#'
    requires w != [] && forall k :: 0 <= k < |w| ==> IsSpace(w[k])
    requires t == [] || !IsSpace(t[0])
    requires '#' !in t
    ensures RemoveHeadingsFrom(h + w + t, 0) == t
  {
    var s := h + w + t;
    var j := |h| + |w|;
    assert s[j..|s|] == t;
    assert RemoveHeadingsFrom(s, 0) == s[j..|s|] + RemoveHeadingsFrom(s, |s|) by {
      assert forall k :: 0 <= k < |h| ==> s[k] == h[k];
      assert forall k :: |h| <= k < j ==> s[k] == w[k - |h|];
      assert forall k :: j <= k < |s| ==> s[k] == t[k - j];
      HeadingLineAt(s, 0, |h|, j, |s|);
    }
    assert RemoveHeadingsFrom(s, |s|) == [];
  }

  /** `s[i..n]` is the heading line `m + x` at a line start: the marker `m` is one or
      more `#` and a space, the text `x` starts with no whitespace and holds no `#`. */
  predicate HeadingLine(s: String, i: nat, m: String, x: String, n: nat) {
    && AtLineStart(s, i) && n == i + |m| + |x| && n <= |s|
    && |m| >= 2 && m[|m| - 1] == ' ' && (forall k :: 0 <= k < |m| - 1 ==> m[k] == '#')
    && x != [] && !IsSpace(x[0]) && '#' !in x
    && s[i..i + |m|] == m && s[i + |m|..n] == x
  }

  /** A heading line keeps its text and loses its marker. */
  lemma HeadingLineKept(s: String, i: nat, m: String, x: String, n: nat)
    requires HeadingLine(s, i, m, x, n)
    ensures RemoveHeadingsFrom(s, i) == x + RemoveHeadingsFrom(s, n)
  {
    var e := i + |m| - 1;
    forall k | i <= k < e ensures s[k] == '#' {
      assert s[k] == s[i..i + |m|][k - i] == m[k - i];
    }
    assert s[e] == s[i..i + |m|][|m| - 1] == ' ';
    forall k | e + 1 <= k < n ensures s[k] != '#' {
      assert s[k] == x[k - e - 1];
    }
    assert s[e + 1] == x[0];
    HeadingLineAt(s, i, e, e + 1, n);
  }

  /** The line `m + x` after the lines `p` is a heading line. */
  lemma HeadingLineAfter(p: String, m: String, x: String, rest: String)
    requires p == [] || p[|p| - 1] == '\n'
    requires |m| >= 2 && m[|m| - 1] == ' ' && forall k :: 0 <= k < |m| - 1 ==> m[k] == '#'
    requires x != [] && !IsSpace(x[0]) && '#' !in x
    ensures HeadingLine(p + (m + x + rest), |p|, m, x, |p| + |m| + |x|)
  {
    var v := m + x + rest;
    var s := p + v;
    assert s[|p|..|p| + |m|] == m && s[|p| + |m|..|p| + |m| + |x|] == x by {
      assert s[|p|..] == v;
      assert v[..|m|] == m && v[|m|..|m| + |x|] == x;
      SuffixSlice(s, |p|, 0, |m|);
      SuffixSlice(s, |p|, |m|, |m| + |x|);
    }
    assert AtLineStart(s, |p|) by {
      assert |p| > 0 ==> s[|p| - 1] == p[|p| - 1];
    }
  }

  /** A slice of a suffix is a slice of the whole. */
  lemma SuffixSlice(s: String, i: nat, j: nat, k: nat)
    requires i <= |s| && j <= k <= |s| - i
    ensures s[i..][j..k] == s[i + j..i + k]
  {
  }

  /** A line's text `t` followed by its line break. */
  lemma LineText(t: String)
    requires t != [] && '#' !in t
    ensures (t + "\n")[0] == t[0] && '#' !in t + "\n"
  {
    assert forall k :: 0 <= k < |t| ==> (t + "\n")[k] == t[k];
  }

  /** `# a` as the first line. */
  lemma FirstHeadingLine(a: String, rest: String)
    requires a != [] && !IsSpace(a[0]) && '#' !in a
    ensures HeadingLine("# " + (a + "\n") + rest, 0, "# ", a + "\n", |a| + 3)
  {
    LineText(a);
    assert "# " + (a + "\n") + rest == [] + ("# " + (a + "\n") + rest);
    HeadingLineAfter([], "# ", a + "\n", rest);
  }

  /** `## b` as the second line, after `# a`. */
  lemma SecondHeadingLine(a: String, b: String, rest: String)
    requires b != [] && !IsSpace(b[0]) && '#' !in b
    ensures HeadingLine("# " + (a + "\n") + ("## " + (b + "\n") + rest), |a| + 3, "## ", b + "\n", |a| + |b| + 7)
  {
    var p := "# " + (a + "\n");
    assert p[|p| - 1] == '\n';
    LineText(b);
    HeadingLineAfter(p, "## ", b + "\n", rest);
  }

  /** `### c` as the third and last line, after `# a` and `## b`. */
  lemma ThirdHeadingLine(a: String, b: String, c: String)
    requires c != [] && !IsSpace(c[0]) && '#' !in c
    ensures var s := "# " + (a + "\n") + ("## " + (b + "\n") + ("### " + c));
      HeadingLine(s, |a| + |b| + 7, "### ", c, |s|)
  {
    var p := "# " + (a + "\n") + ("## " + (b + "\n"));
    assert p[|p| - 1] == '\n';
    assert "# " + (a + "\n") + ("## " + (b + "\n") + ("### " + c)) == p + ("### " + c + []);
    HeadingLineAfter(p, "### ", c, []);
  }

  /** Three heading lines in a row keep their texts, one after the other. */
  lemma ThreeHeadingLines(s: String, n1: nat, n2: nat, x: String, y: String, z: String)
    requires HeadingLine(s, 0, "# ", x, n1)
    requires HeadingLine(s, n1, "## ", y, n2)
    requires HeadingLine(s, n2, "### ", z, |s|)
    ensures RemoveHeadingsFrom(s, 0) == x + (y + z)
  {
    HeadingLineKept(s, 0, "# ", x, n1);
    HeadingLineKept(s, n1, "## ", y, n2);
    HeadingLineKept(s, n2, "### ", z, |s|);
    assert RemoveHeadingsFrom(s, |s|) == [];
    assert z + [] == z;
  }

  /** A headings-only document of the test suite's shape (`# Title`, `## Subtitle`,
      `### Section`) keeps just its titles, one per line. */
  lemma HeadingsOnly(a: String, b: String, c: String)
    requires a != [] && !IsSpace(a[0]) && '#' !in a
    requires b != [] && !IsSpace(b[0]) && '#' !in b
    requires c != [] && !IsSpace(c[0]) && '#' !in c
    ensures RemoveHeadingsFrom("# " + (a + "\n") + ("## " + (b + "\n") + ("### " + c)), 0)
         == (a + "\n") + ((b + "\n") + c)
  {
    var s := "# " + (a + "\n") + ("## " + (b + "\n") + ("### " + c));
    FirstHeadingLine(a, "## " + (b + "\n") + ("### " + c));
    SecondHeadingLine(a, b, "### " + c);
    ThirdHeadingLine(a, b, c);
    ThreeHeadingLines(s, |a| + 3, |a| + |b| + 7, a + "\n", b + "\n", c);
  }

  predicate NotCloseBracket(c: char) { c != ']' }

  predicate NotCloseParen(c: char) { c != ')' }

  /** `s[i..e]` is a link whose text `s[i + 1..t]` ends at `t`: `[`, a non-empty text
      without `]`, `](`, a non-empty target without `)`, and `)`. */
  predicate LinkMatch(s: String, i: nat, t: nat, e: nat) {
    && i + 1 < t && t + 3 < e <= |s|
    && s[i] == '[' && s[t] == ']' && s[t + 1] == '(' && s[e - 1] == ')'
    && (forall k :: i < k < t ==> s[k] != ']')
    && (forall k :: t + 1 < k < e - 1 ==> s[k] != ')')
  }

  /** `\[([^\]]+)\]\([^)]+\)` at `i`: the end of the link text and the end of the match,
      when a link starts there, and nothing when none does. */
  function LinkAt(s: String, i: nat): (r: Option<(nat, nat)>)
    requires i < |s|
    ensures r.Some? ==> LinkMatch(s, i, r.value.0, r.value.1)
    ensures r.None? ==> forall t, e :: !LinkMatch(s, i, t, e)
  {
    if s[i] != '[' then None
    else
      var textEnd := RunEnd(s, i + 1, NotCloseBracket);
      if textEnd == i + 1 || textEnd + 1 >= |s| || s[textEnd + 1] != '(' then None
      else
        var urlEnd := RunEnd(s, textEnd + 2, NotCloseParen);
        if urlEnd == textEnd + 2 || urlEnd == |s| then None
        else Some((textEnd, urlEnd + 1))
  }

  /** `.replace(/\[([^\]]+)\]\([^)]+\)/g, '$1')` from `i` on: links become their text. */
  function RemoveLinksFrom(s: String, i: nat): (r: String)
    requires i <= |s|
    ensures |r| <= |s| - i
    ensures '[' !in s[i..] ==> r == s[i..]
    decreases |s| - i
  {
    if i == |s| then []
    else
      match LinkAt(s, i)
      case Some((textEnd, matchEnd)) =>
        s[i + 1..textEnd] + RemoveLinksFrom(s, matchEnd)
      case None =>
        assert '[' !in s[i..] ==> '[' !in s[i + 1..] && [s[i]] + s[i + 1..] == s[i..];
        [s[i]] + RemoveLinksFrom(s, i + 1)
  }

  /** A link `[t](u)` at the start becomes its text `t`, and the replacement goes on
      after the link; with no further `[`, the rest is kept as it is. */
  lemma LinkBecomesText(t: String, u: String, rest: String)
    requires t != [] && ']' !in t && u != [] && ')' !in u
    ensures var s := "[" + t + "](" + u + ")" + rest;
            RemoveLinksFrom(s, 0) == t + RemoveLinksFrom(s, |t| + |u| + 4)
    ensures '[' !in rest ==> RemoveLinksFrom("[" + t + "](" + u + ")" + rest, 0) == t + rest
  {
    var s := "[" + t + "](" + u + ")" + rest;
    var te, e := |t| + 1, |t| + |u| + 4;
    assert s[1..te] == t && s[te + 2..e - 1] == u && s[e..] == rest;
    assert LinkMatch(s, 0, te, e);
    match LinkAt(s, 0)
    case Some((te', e')) =>
      assert te' == te && e' == e;
    case None =>
      assert false;
  }

  /** The first `d` at or after `j`, or the end of the text. */
  function NextAt(s: String, j: nat, d: char): (e: nat)
    requires j <= |s|
    ensures j <= e <= |s|
    ensures forall k :: j <= k < e ==> s[k] != d
    ensures e == |s| || s[e] == d
    decreases |s| - j
  {
    if j < |s| && s[j] != d then NextAt(s, j + 1, d) else j
  }

  /** `width` copies of `d` start at `i`. */
  predicate DelimiterAt(s: String, i: nat, d: char, width: nat) {
    i + width <= |s| && forall k :: i <= k < i + width ==> s[k] == d
  }

  /** `s[i..e + width]` is `width` copies of `d`, a non-empty text without `d` ending at
      `e`, and `width` copies of `d`. */
  predicate DelimitedMatch(s: String, i: nat, d: char, width: nat, e: nat) {
    && i + width < e && DelimiterAt(s, i, d, width) && DelimiterAt(s, e, d, width)
    && forall k :: i + width <= k < e ==> s[k] != d
  }

  /** The pattern `d{width}([^d]+)d{width}` at `i`: where the inner text ends, when the
      pattern matches there, and nothing when it does not. */
  function DelimitedAt(s: String, i: nat, d: char, width: nat): (r: Option<nat>)
    requires i < |s| && 1 <= width
    ensures r.Some? ==> s[i] == d && DelimitedMatch(s, i, d, width, r.value)
    ensures r.None? ==> forall e :: !DelimitedMatch(s, i, d, width, e)
  {
    if !DelimiterAt(s, i, d, width) then None
    else
      var innerEnd := NextAt(s, i + width, d);
      assert forall e: nat :: DelimitedMatch(s, i, d, width, e) ==> e == innerEnd by {
        forall e: nat | DelimitedMatch(s, i, d, width, e) ensures e == innerEnd {
          assert s[e] == d;
        }
      }
      if innerEnd == i + width || !DelimiterAt(s, innerEnd, d, width) then None
      else Some(innerEnd)
  }

  /** `.replace(/d{width}([^d]+)d{width}/g, '$1')` from `i` on: the bold (`**`), italic
      (`*`) and code (`` ` ``) markers around a non-empty text are dropped. */
  function RemoveDelimitedFrom(s: String, i: nat, d: char, width: nat): (r: String)
    requires i <= |s| && 1 <= width
    ensures |r| <= |s| - i
    ensures NoneFrom(s, i, d) ==> r == s[i..]
    decreases |s| - i
  {
    if i == |s| then []
    else
      match DelimitedAt(s, i, d, width)
      case Some(innerEnd) =>
        s[i + width..innerEnd] + RemoveDelimitedFrom(s, innerEnd + width, d, width)
      case None =>
        assert NoneFrom(s, i, d) ==> [s[i]] + s[i + 1..] == s[i..];
        [s[i]] + RemoveDelimitedFrom(s, i + 1, d, width)
  }

  /** Markers `m` (copies of `d`) around a non-empty text `x` without `d`, at the start
      of a text: the pattern matches there, its inner text being `x`. */
  lemma MarkedText(m: String, x: String, rest: String, d: char)
    requires 1 <= |m| && DelimiterAt(m, 0, d, |m|)
    requires x != [] && NoneFrom(x, 0, d)
    ensures DelimitedMatch(m + x + m + rest, 0, d, |m|, |m| + |x|)
  {
    var s := m + x + m + rest;
    var w, e := |m|, |m| + |x|;
    assert forall k :: 0 <= k < w ==> s[k] == m[k];
    assert forall k :: w <= k < e ==> s[k] == x[k - w];
    assert forall k :: e <= k < e + w ==> s[k] == m[k - e];
  }

  /** Where the pattern matches, its inner text is kept and the replacement goes on
      after the closing markers. */
  lemma DelimitedStep(s: String, i: nat, d: char, width: nat, e: nat)
    requires i < |s| && 1 <= width && DelimitedMatch(s, i, d, width, e)
    ensures RemoveDelimitedFrom(s, i, d, width) == s[i + width..e] + RemoveDelimitedFrom(s, e + width, d, width)
  {
    DelimitedFound(s, i, d, width, e);
    DelimitedReplaced(s, i, d, width, e);
  }

  /** A match is what the matcher finds. */
  lemma DelimitedFound(s: String, i: nat, d: char, width: nat, e: nat)
    requires i < |s| && 1 <= width && DelimitedMatch(s, i, d, width, e)
    ensures DelimitedAt(s, i, d, width) == Some(e)
  {
    var r := DelimitedAt(s, i, d, width);
    DelimitedMatchUnique(s, i, d, width, e, r.value);
  }

  /** What the replacement does with a match the matcher found. */
  lemma DelimitedReplaced(s: String, i: nat, d: char, width: nat, e: nat)
    requires i < |s| && 1 <= width && DelimitedAt(s, i, d, width) == Some(e)
    ensures RemoveDelimitedFrom(s, i, d, width) == s[i + width..e] + RemoveDelimitedFrom(s, e + width, d, width)
  {
  }

  /** At most one match of the pattern starts at a place. */
  lemma DelimitedMatchUnique(s: String, i: nat, d: char, width: nat, e1: nat, e2: nat)
    requires 1 <= width
    requires DelimitedMatch(s, i, d, width, e1) && DelimitedMatch(s, i, d, width, e2)
    ensures e1 == e2
  {
    assert s[e1] == d && s[e2] == d;
  }

  /** `.replace(/\n+/g, ' ')` from `i` on: every run of newlines becomes one space. */
  function CollapseNewlinesFrom(s: String, i: nat): (r: String)
    requires i <= |s|
    ensures |r| <= |s| - i
    ensures '\n' !in r
    decreases |s| - i
  {
    if i == |s| then []
    else if s[i] == '\n' then [' '] + CollapseNewlinesFrom(s, CharRunEnd(s, i, '\n'))
    else
      [s[i]] + CollapseNewlinesFrom(s, i + 1)
  }

  /** A run of newlines becomes one space and the rest goes on after the run. */
  lemma NewlineRunReplaced(s: String, i: nat)
    requires i < |s| && s[i] == '\n'
    ensures CollapseNewlinesFrom(s, i) == [' '] + CollapseNewlinesFrom(s, CharRunEnd(s, i, '\n'))
  {
  }

  /** Any other character is kept. */
  lemma NonNewlineKept(s: String, i: nat)
    requires i < |s| && s[i] != '\n'
    ensures CollapseNewlinesFrom(s, i) == [s[i]] + CollapseNewlinesFrom(s, i + 1)
  {
  }

  /** Text without a newline from `i` on is left as it is. */
  lemma {:induction false} NewlineFreeUnchanged(s: String, i: nat)
    requires i <= |s| && NoneFrom(s, i, '\n')
    ensures CollapseNewlinesFrom(s, i) == s[i..]
    decreases |s| - i
  {
    if i < |s| {
      NonNewlineKept(s, i);
      NewlineFreeUnchanged(s, i + 1);
      assert [s[i]] + s[i + 1..] == s[i..];
    }
  }

  /** Up to the next newline the text is kept; that newline's whole run becomes one
      space. */
  lemma {:induction false} NewlineRunStep(s: String, i: nat, j: nat)
    requires i <= j < |s| && s[j] == '\n'
    requires forall k :: i <= k < j ==> s[k] != '\n'
    ensures CollapseNewlinesFrom(s, i) == s[i..j] + ([' '] + CollapseNewlinesFrom(s, CharRunEnd(s, j, '\n')))
    decreases j - i
  {
    if i < j {
      var after := [' '] + CollapseNewlinesFrom(s, CharRunEnd(s, j, '\n'));
      NonNewlineKept(s, i);
      NewlineRunStep(s, i + 1, j);
      SliceCons(s, i, j, after);
    } else {
      NewlineRunReplaced(s, i);
    }
  }

  /** What comes before plays no part. */
  lemma CollapseNewlinesShift(a: String, b: String, i: nat)
    requires i <= |b|
    ensures CollapseNewlinesFrom(a + b, |a| + i) == CollapseNewlinesFrom(b, i)
  {
    var s := a + b;
    assert forall k :: |a| <= k < |s| ==> s[k] == b[k - |a|];
    CollapseNewlinesAlike(s, |a|, b, 0, |a| + i, i);
  }

  /** Two texts that agree from `p` and `q` on collapse alike from there on: from `x`
      in the one and the matching `y` in the other. */
  lemma {:induction false} CollapseNewlinesAlike(s: String, p: nat, b: String, q: nat, x: nat, y: nat)
    requires AgreeFrom(s, p, b, q) && p <= x <= |s| && x + q == y + p
    ensures CollapseNewlinesFrom(s, x) == CollapseNewlinesFrom(b, y)
    decreases |s| - x
  {
    if x < |s| {
      assert s[x] == b[y];
      if s[x] == '\n' {
        CharRunEndAlike(s, p, b, q, x, y, '\n');
        CollapseNewlinesAlike(s, p, b, q, CharRunEnd(s, x, '\n'), CharRunEnd(b, y, '\n'));
        NewlineRunReplaced(s, x);
        NewlineRunReplaced(b, y);
      } else {
        CollapseNewlinesAlike(s, p, b, q, x + 1, y + 1);
        NonNewlineKept(s, x);
        NonNewlineKept(b, y);
      }
    }
  }

  /** A line, a run of newlines and what follows: the line, one space, and the rest
      treated on its own. */
  lemma NewlinesJoined(t: String, n: String, rest: String)
    requires '\n' !in t
    requires n != [] && forall k :: 0 <= k < |n| ==> n[k] == '\n'
    requires rest == [] || rest[0] != '\n'
    ensures CollapseNewlinesFrom(t + n + rest, 0) == t + ([' '] + CollapseNewlinesFrom(rest, 0))
  {
    var p := t + n;
    var s := p + rest;
    assert forall k :: 0 <= k < |t| ==> s[k] == t[k];
    assert forall k :: |t| <= k < |p| ==> s[k] == n[k - |t|];
    assert rest != [] ==> s[|p|] == rest[0];
    CharRunEndAt(s, |t|, |p|, '\n');
    NewlineRunStep(s, 0, |t|);
    assert s[0..|t|] == t;
    CollapseNewlinesShift(p, rest, 0);
    assert CollapseNewlinesFrom(s, |p|) == CollapseNewlinesFrom(rest, 0);
  }

  /** Three lines separated by blank lines, as in the test suite, are joined by single
      spaces. */
  lemma LinesJoined(a: String, b: String, c: String)
    requires '\n' !in a && '\n' !in b && '\n' !in c
    requires b != [] && c != []
    ensures CollapseNewlinesFrom(a + "\n\n" + (b + "\n\n" + c), 0) == a + ([' '] + (b + ([' '] + c)))
  {
    NewlinesJoined(b, "\n\n", c);
    NewlineFreeUnchanged(c, 0);
    assert c[0..] == c;
    NewlinesJoined(a, "\n\n", b + "\n\n" + c);
  }

  /** The plain text of a markdown body: headings, links, bold, italics and code markers
      removed, newline runs turned into spaces, trimmed. */
  function PlainText(body: String): (r: String)
    ensures |r| <= |body|
    ensures '\n' !in r
    ensures r == [] || (!IsSpace(r[0]) && !IsSpace(r[|r| - 1]))
  {
    var noHeadings := RemoveHeadingsFrom(body, 0);
    var noLinks := RemoveLinksFrom(noHeadings, 0);
    var noBold := RemoveDelimitedFrom(noLinks, 0, '*', 2);
    var noItalics := RemoveDelimitedFrom(noBold, 0, '*', 1);
    var noCode := RemoveDelimitedFrom(noItalics, 0, '`', 1);
    var r := Trim(CollapseNewlinesFrom(noCode, 0));
    TrimKeepsOut(CollapseNewlinesFrom(noCode, 0), '\n');
    r
  }

  /** The truncation step: the text itself when it fits, else its first `maxLength`
      characters, trimmed, followed by `...`. */
  function Truncate(plain: String, maxLength: nat): (r: String)
    requires '\n' !in plain && (plain == [] || !IsSpace(plain[0]))
    ensures |plain| <= maxLength ==> r == plain
    ensures |plain| > maxLength ==> r == Trim(plain[..maxLength]) + "..."
    ensures |r| <= maxLength + 3
    ensures '\n' !in r
    ensures r == [] || !IsSpace(r[0])
    ensures r == [] <==> plain == []
  {
    if |plain| > maxLength then
      var cut := plain[..maxLength];
      var t := Trim(cut);
      assert '\n' !in t by {
        TrimSlice(cut);
        var a := |cut| - |TrimStart(cut)|;
        assert forall k :: 0 <= k < |t| ==> t[k] == plain[a + k];
      }
      t + "..."
    else plain
  }

  /** `extractExcerpt(content, maxLength)`: plain text of the body, truncated. */
  function ExtractExcerpt(content: String, maxLength: nat): (r: String)
    ensures |r| <= maxLength + 3
    ensures '\n' !in r
    ensures r == [] || !IsSpace(r[0])
    ensures r == [] <==> PlainText(BodyOf(content)) == []
    ensures |PlainText(BodyOf(content))| <= maxLength ==> r == PlainText(BodyOf(content))
    ensures |PlainText(BodyOf(content))| > maxLength ==> |r| >= 3 && r[|r| - 3..] == "..."
  {
    Truncate(PlainText(BodyOf(content)), maxLength)
  }

  /** The default `maxLength` of `extractExcerpt`. */
  const DefaultExcerptLength: nat := 160

  /** The frontmatter plays no part in the excerpt. */
  lemma ExcerptIgnoresFrontmatter(header: String, body: String, maxLength: nat)
    requires HeaderFenceFree(header)
    ensures ExtractExcerpt(Compose(header, body), maxLength) == Truncate(PlainText(body), maxLength)
  {
    SplitCompose(header, body);
  }

  /** An empty document has an empty excerpt. */
  lemma ExcerptOfEmpty(maxLength: nat)
    ensures ExtractExcerpt([], maxLength) == []
  {
    assert SplitFrontmatter([]) == None;
    assert RemoveHeadingsFrom([], 0) == [];
  }

  /** A title line of the headings-only test: no markup, no line break, and no
      whitespace at either end. */
  predicate PlainTitle(x: String) {
    && x != [] && !IsSpace(x[0]) && !IsSpace(x[|x| - 1])
    && '#' !in x && '\n' !in x && '[' !in x && '*' !in x && '`' !in x
  }

  /** The headings-only document of the test suite: its excerpt is the three titles
      joined by single spaces. */
  lemma ExcerptOfHeadings(a: String, b: String, c: String)
    requires PlainTitle(a) && PlainTitle(b) && PlainTitle(c)
    requires |a| + |b| + |c| + 2 <= DefaultExcerptLength
    ensures ExtractExcerpt("# " + (a + "\n") + ("## " + (b + "\n") + ("### " + c)), DefaultExcerptLength)
         == a + ([' '] + (b + ([' '] + c)))
  {
    var doc := "# " + (a + "\n") + ("## " + (b + "\n") + ("### " + c));
    assert doc[0] == '#';
    assert BodyOf(doc) == doc;
    TitlesPlainText(a, b, c);
  }

  /** The plain text of the headings-only document. */
  lemma TitlesPlainText(a: String, b: String, c: String)
    requires PlainTitle(a) && PlainTitle(b) && PlainTitle(c)
    ensures PlainText("# " + (a + "\n") + ("## " + (b + "\n") + ("### " + c))) == a + ([' '] + (b + ([' '] + c)))
  {
    HeadingsOnly(a, b, c);
    var h := (a + "\n") + ((b + "\n") + c);
    MarkupFreeUnchanged(h);
    NewlinesJoined(b, "\n", c);
    NewlineFreeUnchanged(c, 0);
    NewlinesJoined(a, "\n", (b + "\n") + c);
    var j := a + ([' '] + (b + ([' '] + c)));
    assert j[0] == a[0] && j[|j| - 1] == c[|c| - 1];
    TrimUnchanged(j);
  }

  /** Text without `[`, `*` or `` ` `` passes the link, bold, italics and code steps
      unchanged. */
  lemma MarkupFreeUnchanged(h: String)
    requires '[' !in h && '*' !in h && '`' !in h
    ensures RemoveLinksFrom(h, 0) == h
    ensures RemoveDelimitedFrom(h, 0, '*', 2) == h
    ensures RemoveDelimitedFrom(h, 0, '*', 1) == h
    ensures RemoveDelimitedFrom(h, 0, '`', 1) == h
  {
    assert h[0..] == h;
    assert NoneFrom(h, 0, '*') && NoneFrom(h, 0, '`');
  }

  // ----- estimateReadingTime -----

  /** `s.split(/\s+/)`: the pieces between maximal whitespace runs, with an empty piece
      before a leading run and after a trailing one. */
  function SplitOnSpaceRuns(s: String): (r: seq<String>)
    ensures |r| >= 1
    ensures forall k, c :: 0 <= k < |r| && c in r[k] ==> !IsSpace(c)
    decreases |s|
  {
    var pieceEnd := RunEnd(s, 0, NotSpace);
    if pieceEnd == |s| then [s]
    else
      var next := RunEnd(s, pieceEnd, IsSpace);
      [s[..pieceEnd]] + SplitOnSpaceRuns(s[next..])
  }

  /** The number of maximal whitespace runs in `s`; `afterSpace` says whether the
      character before `s` was whitespace. */
  function SpaceRuns(s: String, afterSpace: bool): nat
    decreases |s|
  {
    if s == [] then 0
    else (if IsSpace(s[0]) && !afterSpace then 1 else 0) + SpaceRuns(s[1..], IsSpace(s[0]))
  }

  lemma {:induction false} SpaceRunsOfWord(w: String, t: String, afterSpace: bool)
    requires forall k :: 0 <= k < |w| ==> !IsSpace(w[k])
    ensures SpaceRuns(w + t, afterSpace) == SpaceRuns(t, if w == [] then afterSpace else false)
    decreases |w|
  {
    if w == [] {
      assert w + t == t;
    } else {
      assert (w + t)[1..] == w[1..] + t;
      SpaceRunsOfWord(w[1..], t, false);
    }
  }

  lemma {:induction false} SpaceRunsOfGap(g: String, t: String, afterSpace: bool)
    requires g != [] && forall k :: 0 <= k < |g| ==> IsSpace(g[k])
    ensures SpaceRuns(g + t, afterSpace) == (if afterSpace then 0 else 1) + SpaceRuns(t, true)
    decreases |g|
  {
    assert (g + t)[1..] == g[1..] + t;
    if |g| > 1 {
      SpaceRunsOfGap(g[1..], t, true);
    }
  }

  /** The number of pieces is one more than the number of whitespace runs. */
  lemma {:induction false} PiecesCountRuns(s: String)
    ensures |SplitOnSpaceRuns(s)| == 1 + SpaceRuns(s, false)
    decreases |s|
  {
    var pieceEnd := RunEnd(s, 0, NotSpace);
    if pieceEnd == |s| {
      LoneWordRuns(s);
    } else {
      var rest := s[RunEnd(s, pieceEnd, IsSpace)..];
      PiecesCountRuns(rest);
      WordGapRuns(s);
    }
  }

  /** A text without whitespace is one piece and has no whitespace run. */
  lemma LoneWordRuns(s: String)
    requires RunEnd(s, 0, NotSpace) == |s|
    ensures |SplitOnSpaceRuns(s)| == 1 && SpaceRuns(s, false) == 0
  {
    WordRun(s, |s|);
    assert s[..|s|] + [] == s;
    SpaceRunsOfWord(s[..|s|], [], false);
  }

  /** A text with whitespace: a word, a whitespace run and the rest, which has one piece
      and one run fewer. */
  lemma WordGapRuns(s: String)
    requires RunEnd(s, 0, NotSpace) < |s|
    ensures var rest := s[RunEnd(s, RunEnd(s, 0, NotSpace), IsSpace)..];
            && |SplitOnSpaceRuns(s)| == 1 + |SplitOnSpaceRuns(rest)|
            && SpaceRuns(s, false) == 1 + SpaceRuns(rest, false)
  {
    var pieceEnd := RunEnd(s, 0, NotSpace);
    var next := RunEnd(s, pieceEnd, IsSpace);
    var w := s[..pieceEnd];
    var g := s[pieceEnd..next];
    var rest := s[next..];
    WordRun(s, pieceEnd);
    GapRun(s, pieceEnd, next);
    assert s == w + (g + rest);
    CountWordAndGap(w, g, rest);
  }

  /** A word, then a whitespace run, then text starting with a non-whitespace character:
      one run more than the text alone. */
  lemma CountWordAndGap(w: String, g: String, rest: String)
    requires forall k :: 0 <= k < |w| ==> !IsSpace(w[k])
    requires g != [] && forall k :: 0 <= k < |g| ==> IsSpace(g[k])
    requires rest == [] || !IsSpace(rest[0])
    ensures SpaceRuns(w + (g + rest), false) == 1 + SpaceRuns(rest, false)
  {
    SpaceRunsOfWord(w, g + rest, false);
    SpaceRunsOfGap(g, rest, false);
    RunsAfterGap(rest);
  }

  /** The leading run of non-whitespace holds no whitespace. */
  lemma WordRun(s: String, e: nat)
    requires e == RunEnd(s, 0, NotSpace)
    ensures forall k :: 0 <= k < |s[..e]| ==> !IsSpace(s[..e][k])
  {
    forall k | 0 <= k < e
      ensures !IsSpace(s[..e][k])
    {
      assert s[..e][k] == s[k] && NotSpace(s[k]);
    }
  }

  /** The whitespace run that starts at a whitespace character is non-empty and holds
      only whitespace. */
  lemma GapRun(s: String, i: nat, e: nat)
    requires i < |s| && !NotSpace(s[i]) && e == RunEnd(s, i, IsSpace)
    ensures s[i..e] != [] && forall k :: 0 <= k < |s[i..e]| ==> IsSpace(s[i..e][k])
  {
    forall k | 0 <= k < e - i
      ensures IsSpace(s[i..e][k])
    {
      assert s[i..e][k] == s[i + k];
    }
  }

  /** After a whitespace run the text starts with a non-whitespace character, so whether
      a run came before makes no difference to the count. */
  lemma RunsAfterGap(rest: String)
    requires rest == [] || !IsSpace(rest[0])
    ensures SpaceRuns(rest, true) == SpaceRuns(rest, false)
  {
  }

  const WordsPerMinute: nat := 200

  /** `Math.ceil(n / d)` for a positive count. */
  function CeilDiv(n: nat, d: nat): (r: nat)
    requires d > 0
    ensures r * d >= n && (r == 0 || (r - 1) * d < n)
  {
    (n + d - 1) / d
  }

  /** `estimateReadingTime`: minutes at 200 pieces a minute, rounded up, over the body's
      whitespace-split pieces; at least one, since splitting yields at least one piece. */
  function EstimateReadingTime(content: String): (r: nat)
    ensures r >= 1
    ensures (r - 1) * WordsPerMinute < |SplitOnSpaceRuns(BodyOf(content))| <= r * WordsPerMinute
  {
    CeilDiv(|SplitOnSpaceRuns(BodyOf(content))|, WordsPerMinute)
  }

  /** The frontmatter plays no part in the reading time either. */
  lemma ReadingTimeIgnoresFrontmatter(header: String, body: String)
    requires HeaderFenceFree(header)
    ensures EstimateReadingTime(Compose(header, body)) == CeilDiv(1 + SpaceRuns(body, false), WordsPerMinute)
  {
    SplitCompose(header, body);
    PiecesCountRuns(body);
  }
}
