/**
  The JavaScript string primitives the services rely on, over sequences of characters:
  the `\s` class and line terminators of regular expressions, `trim`, `indexOf`,
  `replace` with a string pattern, `endsWith`, and `split` / `join` on one character.
  Lengths and indices count characters (not UTF-16 code units).
 */
module JsText {
  import opened Wrappers

  type String = seq<char>

  /** A JSON value read from an upstream response whose shape is not checked. */
  datatype JsValue = JsString(str: String) | JsNumber(num: int) | JsOtherValue

  /** JavaScript truthiness of an optional string: present and not empty. */
  predicate Truthy(o: Option<String>) {
    o.Some? && o.value != []
  }

  /** `o || fallback` on an optional string: the value when it is set and not empty,
      else the fallback. */
  function OrElse(o: Option<String>, fallback: String): (r: String)
    ensures Truthy(o) ==> r == o.value
    ensures !Truthy(o) ==> r == fallback
    ensures |r| > 0 <==> Truthy(o) || |fallback| > 0
  {
    if Truthy(o) then o.value else fallback
  }

  /** The characters that end a line for `.`, `^` and `$` (multiline) in a regular expression. */
  predicate IsLineTerminator(c: char) {
    c == '\n' || c == '\r' || c == '\U{2028}' || c == '\U{2029}'
  }

  predicate NotLineTerminator(c: char) {
    !IsLineTerminator(c)
  }

  /** The class `\s` of regular expressions; also exactly what `trim` removes. */
  predicate IsSpace(c: char) {
    || IsLineTerminator(c)
    || c == '\t' || c == '\U{000B}' || c == '\U{000C}' || c == ' '
    || c == '\U{00A0}' || c == '\U{1680}' || ('\U{2000}' <= c <= '\U{200A}')
    || c == '\U{202F}' || c == '\U{205F}' || c == '\U{3000}' || c == '\U{FEFF}'
  }

  predicate IsHash(c: char) { c == '#' }

  predicate IsNewline(c: char) { c == '\n' }

  predicate NotSpace(c: char) { !IsSpace(c) }

  /** No `d` from `i` on. */
  predicate NoneFrom(s: String, i: nat, d: char) {
    forall k :: i <= k < |s| ==> s[k] != d
  }

  /** Position `i` is where `^` matches in multiline mode. */
  predicate AtLineStart(s: String, i: nat) {
    i == 0 || (i <= |s| && IsLineTerminator(s[i - 1]))
  }

  /** End of the longest run of characters satisfying `p` that starts at `i`. */
  function RunEnd(s: String, i: nat, p: char -> bool): (e: nat)
    requires i <= |s|
    ensures i <= e <= |s|
    ensures forall k :: i <= k < e ==> p(s[k])
    ensures e == |s| || !p(s[e])
    decreases |s| - i
  {
    if i < |s| && p(s[i]) then RunEnd(s, i + 1, p) else i
  }

  /** End of the longest run of `d` that starts at `i`: `RunEnd` for the class of one
      character, written without a function value. */
  function CharRunEnd(s: String, i: nat, d: char): (e: nat)
    requires i <= |s|
    ensures i <= e <= |s|
    ensures forall k :: i <= k < e ==> s[k] == d
    ensures e == |s| || s[e] != d
    decreases |s| - i
  {
    if i < |s| && s[i] == d then CharRunEnd(s, i + 1, d) else i
  }

  /** End of the longest whitespace run that starts at `i`: `RunEnd` for `\s`, written
      without a function value. */
  function SpaceRunEnd(s: String, i: nat): (e: nat)
    requires i <= |s|
    ensures i <= e <= |s|
    ensures forall k :: i <= k < e ==> IsSpace(s[k])
    ensures e == |s| || !IsSpace(s[e])
    decreases |s| - i
  {
    if i < |s| && IsSpace(s[i]) then SpaceRunEnd(s, i + 1) else i
  }

  /** The run of `d` ends exactly where the `d`s stop. */
  lemma {:induction false} CharRunEndAt(s: String, i: nat, e: nat, d: char)
    requires i <= e <= |s|
    requires forall k :: i <= k < e ==> s[k] == d
    requires e == |s| || s[e] != d
    ensures CharRunEnd(s, i, d) == e
    decreases e - i
  {
    if i < e {
      CharRunEndAt(s, i + 1, e, d);
    }
  }

  /** The whitespace run ends exactly where the whitespace stops. */
  lemma {:induction false} SpaceRunEndAt(s: String, i: nat, e: nat)
    requires i <= e <= |s|
    requires forall k :: i <= k < e ==> IsSpace(s[k])
    requires e == |s| || !IsSpace(s[e])
    ensures SpaceRunEnd(s, i) == e
    decreases e - i
  {
    if i < e {
      SpaceRunEndAt(s, i + 1, e);
    }
  }

  /** `s` from `p` on and `b` from `q` on are the same text. */
  predicate AgreeFrom(s: String, p: nat, b: String, q: nat) {
    && p <= |s| && q <= |b| && |s| - p == |b| - q
    && forall k :: p <= k < |s| ==> s[k] == b[k - p + q]
  }

  /** A run of `d` ends at the matching place in two texts that agree from there on. */
  lemma CharRunEndAlike(s: String, p: nat, b: String, q: nat, x: nat, y: nat, d: char)
    requires AgreeFrom(s, p, b, q) && p <= x <= |s| && x + q == y + p
    ensures CharRunEnd(s, x, d) + q == CharRunEnd(b, y, d) + p
  {
    var e := CharRunEnd(b, y, d) - q + p;
    assert forall k :: x <= k < e ==> s[k] == b[k - p + q];
    assert e < |s| ==> s[e] == b[e - p + q];
    CharRunEndAt(s, x, e, d);
  }

  /** A slice is its first character followed by the rest of it. */
  lemma SliceCons(s: String, i: nat, j: nat, r: String)
    requires i < j <= |s|
    ensures [s[i]] + (s[i + 1..j] + r) == s[i..j] + r
  {
    assert s[i..j] == [s[i]] + s[i + 1..j];
  }

  /** Start of the longest run of characters satisfying `p` that ends at `j`. */
  function RunStart(s: String, j: nat, p: char -> bool): (b: nat)
    requires j <= |s|
    ensures b <= j
    ensures forall k :: b <= k < j ==> p(s[k])
    ensures b == 0 || !p(s[b - 1])
  {
    if j > 0 && p(s[j - 1]) then RunStart(s, j - 1, p) else j
  }

  /** Where `.+` started at `i` stops: the end of the line that holds `i`. */
  function LineEnd(s: String, i: nat): (e: nat)
    requires i <= |s|
    ensures i <= e <= |s|
    ensures forall k :: i <= k < e ==> !IsLineTerminator(s[k])
    ensures e == |s| || IsLineTerminator(s[e])
  {
    RunEnd(s, i, NotLineTerminator)
  }

  /** `trimStart`: drops the leading whitespace. */
  function TrimStart(s: String): (r: String)
    ensures |r| <= |s| && r == s[|s| - |r|..]
    ensures forall k :: 0 <= k < |s| - |r| ==> IsSpace(s[k])
    ensures r == [] || !IsSpace(r[0])
    ensures s == [] || !IsSpace(s[0]) ==> r == s
  {
    s[RunEnd(s, 0, IsSpace)..]
  }

  /** `trimEnd`: drops the trailing whitespace. */
  function TrimEnd(s: String): (r: String)
    ensures |r| <= |s| && r == s[..|r|]
    ensures forall k :: |r| <= k < |s| ==> IsSpace(s[k])
    ensures r == [] || !IsSpace(r[|r| - 1])
    ensures s == [] || !IsSpace(s[|s| - 1]) ==> r == s
  {
    assert s[..|s|] == s;
    s[..RunStart(s, |s|, IsSpace)]
  }

  /** `trim`: the slice left once whitespace is dropped at both ends. */
  function Trim(s: String): (r: String)
    ensures |r| <= |s|
    ensures r == [] || (!IsSpace(r[0]) && !IsSpace(r[|r| - 1]))
  {
    TrimEnd(TrimStart(s))
  }

  /** A text that neither starts nor ends with whitespace is its own trim. */
  lemma TrimUnchanged(s: String)
    requires s == [] || (!IsSpace(s[0]) && !IsSpace(s[|s| - 1]))
    ensures Trim(s) == s
  {
    assert TrimStart(s) == s;
  }

  /** What `trim` keeps is the slice of `s` after its leading whitespace, and all it
      drops is whitespace. */
  lemma TrimSlice(s: String)
    ensures TrimmedAt(s, Trim(s), |s| - |TrimStart(s)|)
  {
    var t := TrimStart(s);
    var r := TrimEnd(t);
    TrimStartAt(s);
    TrimEndAt(t);
    TrimmedTwice(s, t, r, |s| - |t|, 0);
    assert Trim(s) == r;
  }

  /** A character absent from `s` is absent from its trimmed text. */
  lemma TrimKeepsOut(s: String, c: char)
    requires c !in s
    ensures c !in Trim(s)
  {
    var r := Trim(s);
    var a := |s| - |TrimStart(s)|;
    TrimSlice(s);
    assert forall k :: 0 <= k < |r| ==> r[k] == s[a + k];
  }

  lemma TrimStartAt(s: String)
    ensures TrimmedAt(s, TrimStart(s), |s| - |TrimStart(s)|)
  {
    var r := TrimStart(s);
    var a := |s| - |r|;
    assert a + |r| == |s|;
    assert s[a..a + |r|] == s[a..];
  }

  lemma TrimEndAt(s: String)
    ensures TrimmedAt(s, TrimEnd(s), 0)
  {
  }

  /** Trimming a trimmed slice leaves a trimmed slice of the original. */
  lemma TrimmedTwice(s: String, t: String, r: String, a: int, b: int)
    requires TrimmedAt(s, t, a) && TrimmedAt(t, r, b)
    ensures TrimmedAt(s, r, a + b)
  {
    assert r == s[a + b..a + b + |r|] by {
      forall k | 0 <= k < |r|
        ensures r[k] == s[a + b + k]
      {
        assert r[k] == t[b + k];
        assert t[b + k] == s[a + b + k];
      }
    }
    forall k | 0 <= k < a + b
      ensures IsSpace(s[k])
    {
      if k >= a {
        assert s[k] == t[k - a];
      }
    }
    forall k | a + b + |r| <= k < |s|
      ensures IsSpace(s[k])
    {
      if k < a + |t| {
        assert s[k] == t[k - a];
      }
    }
  }

  /** `r` is the slice of `s` at `a`, and everything of `s` around it is whitespace. */
  predicate TrimmedAt(s: String, r: String, a: int) {
    && 0 <= a <= |s| - |r| && r == s[a..a + |r|]
    && (forall k :: 0 <= k < a ==> IsSpace(s[k]))
    && (forall k :: a + |r| <= k < |s| ==> IsSpace(s[k]))
  }

  /** `pat` occurs in `s` starting at index `j`. */
  predicate OccursAt(s: String, pat: String, j: int) {
    0 <= j && j + |pat| <= |s| && s[j..j + |pat|] == pat
  }

  /** `indexOf(pat, i)`: the first occurrence of `pat` at or after `i`. */
  function IndexOfFrom(s: String, pat: String, i: nat): (r: Option<nat>)
    requires i <= |s|
    ensures r.Some? ==> i <= r.value && OccursAt(s, pat, r.value)
    ensures r.Some? ==> forall j :: i <= j < r.value ==> !OccursAt(s, pat, j)
    ensures r.None? ==> forall j :: i <= j ==> !OccursAt(s, pat, j)
    decreases |s| - i
  {
    if OccursAt(s, pat, i) then Some(i)
    else if i == |s| then None
    else IndexOfFrom(s, pat, i + 1)
  }

  /** `includes(pat)`. */
  predicate Contains(s: String, pat: String) {
    IndexOfFrom(s, pat, 0).Some?
  }

  lemma ContainsIff(s: String, pat: String)
    ensures Contains(s, pat) <==> exists j :: OccursAt(s, pat, j)
  {
    if exists j :: OccursAt(s, pat, j) {
      var j :| OccursAt(s, pat, j);
      assert j >= 0;
    }
  }

  /** `s.replace(pat, rep)` with a string pattern: only the first occurrence is replaced. */
  function ReplaceFirst(s: String, pat: String, rep: String): (r: String)
    ensures (forall j :: !OccursAt(s, pat, j)) ==> r == s
    ensures forall k :: OccursAt(s, pat, k) && (forall j :: 0 <= j < k ==> !OccursAt(s, pat, j))
                        ==> r == s[..k] + rep + s[k + |pat|..]
  {
    match IndexOfFrom(s, pat, 0)
    case None => s
    case Some(k) =>
      assert forall k' :: OccursAt(s, pat, k') && (forall j :: 0 <= j < k' ==> !OccursAt(s, pat, j)) ==> k' == k;
      s[..k] + rep + s[k + |pat|..]
  }

  /** `s.replace(pat, '')`: the first occurrence of `pat` removed, wherever it is. */
  function RemoveFirst(s: String, pat: String): (r: String)
    ensures (forall j :: !OccursAt(s, pat, j)) ==> r == s
    ensures forall k :: OccursAt(s, pat, k) && (forall j :: 0 <= j < k ==> !OccursAt(s, pat, j))
                        ==> r == s[..k] + s[k + |pat|..]
  {
    ReplaceFirst(s, pat, [])
  }

  /** `pat` occurs nowhere in `s`. */
  predicate FreeOf(s: String, pat: String) {
    forall j :: 0 <= j <= |s| ==> !OccursAt(s, pat, j)
  }

  /** `.md` cannot overlap itself, so in `a + ".md" + b` with `a` free of `.md` the first
      `.md` is the one after `a`, and removing it leaves `a + b`. */
  lemma {:induction false} RemoveFirstMd(a: String, b: String)
    requires FreeOf(a, ".md")
    ensures RemoveFirst(a + ".md" + b, ".md") == a + b
  {
    var s := a + ".md" + b;
    var m := |a|;
    assert OccursAt(s, ".md", m) by {
      assert s[m..m + 3] == ".md";
    }
    forall j | 0 <= j < m
      ensures !OccursAt(s, ".md", j)
    {
      if j + 3 <= m {
        assert s[j..j + 3] == a[j..j + 3];
        assert !OccursAt(a, ".md", j);
      } else if j == m - 2 {
        assert s[j..j + 3][2] == '.' != ".md"[2];
      } else {
        assert s[j..j + 3][1] == '.' != ".md"[1];
      }
    }
    assert s[..m] == a && s[m + 3..] == b;
  }

  /** `endsWith(suffix)`. */
  predicate EndsWith(s: String, suffix: String) {
    |suffix| <= |s| && s[|s| - |suffix|..] == suffix
  }

  /** `pieces.join(sep)`. */
  function Join(pieces: seq<String>, sep: char): String {
    if |pieces| == 0 then []
    else if |pieces| == 1 then pieces[0]
    else pieces[0] + [sep] + Join(pieces[1..], sep)
  }

  /** `s.split(sep)` for a one-character separator: never empty, pieces free of `sep`,
      and joining the pieces back gives `s`. */
  function SplitOn(s: String, sep: char): (r: seq<String>)
    ensures |r| >= 1
    ensures forall k :: 0 <= k < |r| ==> sep !in r[k]
    ensures Join(r, sep) == s
    decreases |s|
  {
    if s == [] then [[]]
    else
      var rest := SplitOn(s[1..], sep);
      if s[0] == sep then
        assert s == [sep] + s[1..];
        [[]] + rest
      else
        var r := [[s[0]] + rest[0]] + rest[1..];
        assert Join(r, sep) == s by {
          if |rest| > 1 {
            assert Join(rest, sep) == rest[0] + [sep] + Join(rest[1..], sep);
            assert r[1..] == rest[1..];
          }
        }
        r
  }

  lemma {:induction false} SplitOnPrefix(p: String, t: String, sep: char)
    requires sep !in p
    ensures SplitOn(p + [sep] + t, sep) == [p] + SplitOn(t, sep)
    decreases |p|
  {
    var s := p + [sep] + t;
    if p == [] {
      assert s[0] == sep && s[1..] == t;
    } else {
      assert s[0] == p[0] && s[1..] == p[1..] + [sep] + t;
      SplitOnPrefix(p[1..], t, sep);
      assert [p[0]] + p[1..] == p;
    }
  }

  lemma {:induction false} SplitOnFree(p: String, sep: char)
    requires sep !in p
    ensures SplitOn(p, sep) == [p]
    decreases |p|
  {
    if p != [] {
      SplitOnFree(p[1..], sep);
      assert [p[0]] + p[1..] == p;
    }
  }

  /** The other half of the round trip: splitting a join of separator-free pieces gives
      the pieces back. */
  lemma {:induction false} SplitJoin(pieces: seq<String>, sep: char)
    requires |pieces| >= 1
    requires forall k :: 0 <= k < |pieces| ==> sep !in pieces[k]
    ensures SplitOn(Join(pieces, sep), sep) == pieces
    decreases |pieces|
  {
    if |pieces| == 1 {
      SplitOnFree(pieces[0], sep);
    } else {
      SplitJoin(pieces[1..], sep);
      SplitOnPrefix(pieces[0], Join(pieces[1..], sep), sep);
      assert [pieces[0]] + pieces[1..] == pieces;
    }
  }
}
