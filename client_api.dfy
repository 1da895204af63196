/**
  `client/src/services/api.ts`: `formatArticleTitle`, which turns a file name such as
  `getting-started.md` into the display title `Getting Started`. Upper-casing is modelled
  for the ASCII letters only.
 */
module ClientApi {
  import opened JsText

  /** `toUpperCase` on one character, for the ASCII letters; every other character is
      left as it is. */
  function UpperAscii(c: char): (u: char)
    ensures 'a' <= c <= 'z' ==> 'A' <= u <= 'Z' && u as int == c as int - 32
    ensures !('a' <= c <= 'z') ==> u == c
  {
    if 'a' <= c <= 'z' then (c as int - 32) as char else c
  }

  /** `word.charAt(0).toUpperCase() + word.slice(1)`: the first character upper-cased, the
      rest unchanged, and the empty word left empty. */
  function Capitalize(w: String): (r: String)
    ensures |r| == |w|
    ensures |w| > 0 ==> r[0] == UpperAscii(w[0]) && r[1..] == w[1..]
  {
    if w == [] then [] else [UpperAscii(w[0])] + w[1..]
  }

  /** `.map(...)` with `Capitalize`. */
  function CapitalizeAll(words: seq<String>): (r: seq<String>)
    ensures |r| == |words| && forall k :: 0 <= k < |r| ==> r[k] == Capitalize(words[k])
  {
    seq(|words|, k requires 0 <= k < |words| => Capitalize(words[k]))
  }

  /** `formatArticleTitle(name)`: the first `.md` removed, the rest split at `-`, each
      piece capitalised, and the pieces joined with spaces. */
  function FormatArticleTitle(name: String): String {
    Join(CapitalizeAll(SplitOn(RemoveFirst(name, ".md"), '-')), ' ')
  }

  /** The reference, character by character: a `-` becomes a space, a character that
      starts a word (at the front or after a `-`) is upper-cased, any other is kept. */
  function TitleChar(s: String, k: nat): char
    requires k < |s|
  {
    if s[k] == '-' then ' '
    else if k == 0 || s[k - 1] == '-' then UpperAscii(s[k])
    else s[k]
  }

  /** The title is, position for position, the reference applied to the name without its
      first `.md`: in particular it is just as long. */
  lemma FormatMatchesReference(name: String)
    ensures var s := RemoveFirst(name, ".md");
            var r := FormatArticleTitle(name);
            |r| == |s| && forall k :: 0 <= k < |s| ==> r[k] == TitleChar(s, k)
  {
    var s := RemoveFirst(name, ".md");
    JoinCapitalized(SplitOn(s, '-'));
  }

  /** No `-` survives: each one became a space, and upper-casing never produces one. */
  lemma NoHyphenInTitle(name: String)
    ensures '-' !in FormatArticleTitle(name)
  {
    var s := RemoveFirst(name, ".md");
    var r := FormatArticleTitle(name);
    FormatMatchesReference(name);
    forall k | 0 <= k < |r|
      ensures r[k] != '-'
    {
      assert r[k] == TitleChar(s, k);
    }
  }

  /** The spaces of the title sit exactly where the name had a `-` or a space. */
  lemma SpacesAtHyphens(name: String)
    ensures var s := RemoveFirst(name, ".md");
            var r := FormatArticleTitle(name);
            |r| == |s| && forall k :: 0 <= k < |r| ==> (r[k] == ' ' <==> s[k] == '-' || s[k] == ' ')
  {
    FormatMatchesReference(name);
  }

  /** Joining capitalised pieces with spaces is the reference applied to the pieces joined
      with `-`. */
  lemma {:induction false} JoinCapitalized(pieces: seq<String>)
    requires |pieces| >= 1 && forall k :: 0 <= k < |pieces| ==> '-' !in pieces[k]
    ensures var s := Join(pieces, '-');
            var r := Join(CapitalizeAll(pieces), ' ');
            |r| == |s| && forall k :: 0 <= k < |s| ==> r[k] == TitleChar(s, k)
    decreases |pieces|
  {
    var p := pieces[0];
    var c := Capitalize(p);
    if |pieces| == 1 {
      CapitalizedPiece(p, p);
    } else {
      var s' := Join(pieces[1..], '-');
      var r' := Join(CapitalizeAll(pieces[1..]), ' ');
      JoinCapitalized(pieces[1..]);
      assert CapitalizeAll(pieces)[1..] == CapitalizeAll(pieces[1..]);
      assert Join(pieces, '-') == p + ['-'] + s';
      assert Join(CapitalizeAll(pieces), ' ') == c + [' '] + r';
      CapitalizedPiece(p, p + ['-'] + s');
      AfterHyphen(p, c, s', r');
    }
  }

  /** Behind a piece and its `-`, the title of the rest carries over: the `-` becomes a
      space and the rest's characters keep their reference values. */
  lemma AfterHyphen(p: String, c: String, s': String, r': String)
    requires |c| == |p| && |r'| == |s'|
    requires forall j :: 0 <= j < |s'| ==> r'[j] == TitleChar(s', j)
    ensures var s := p + ['-'] + s';
            var r := c + [' '] + r';
            forall k :: |p| <= k < |s| ==> r[k] == TitleChar(s, k)
  {
    var s := p + ['-'] + s';
    var r := c + [' '] + r';
    forall k | |p| <= k < |s|
      ensures r[k] == TitleChar(s, k)
    {
      if k > |p| {
        var j := k - |p| - 1;
        assert s[k] == s'[j] && r[k] == r'[j];
        if j > 0 {
          assert s[k - 1] == s'[j - 1];
        }
      }
    }
  }

  /** A piece free of `-` at the front of `s`: capitalising it agrees with the reference
      on the piece's positions. */
  lemma CapitalizedPiece(p: String, s: String)
    requires '-' !in p && |p| <= |s| && s[..|p|] == p
    ensures forall k :: 0 <= k < |p| ==> Capitalize(p)[k] == TitleChar(s, k)
  {
    forall k | 0 <= k < |p|
      ensures Capitalize(p)[k] == TitleChar(s, k)
    {
      assert s[k] == p[k];
      if k > 0 {
        assert s[k - 1] == p[k - 1];
        assert Capitalize(p)[k] == Capitalize(p)[1..][k - 1];
      }
    }
  }
}
