/**
  HTML/XML escaping (`html.escape` with `quote=True`) and the rendering of
  snippets as HTML paragraphs (`paragraphs_to_html`).

  `html.escape` replaces `&` first and then `<`, `>`, `"` and `'`; since no
  replacement introduces one of the later characters, that is the same as
  escaping each character on its own, which is how it is written here.
*/
module Escaping {
  import opened Wrappers

  /** The characters that never appear raw in escaped text. */
  predicate IsMarkup(c: char) {
    c == '<' || c == '>' || c == '"' || c == '\''
  }

  function EscapeChar(c: char): string {
    match c
    case '&' => "&amp;"
    case '<' => "&lt;"
    case '>' => "&gt;"
    case '"' => "&quot;"
    case '\'' => "&#x27;"
    case _ => [c]
  }

  function Escape(s: string): (r: string)
    ensures |r| >= |s|
    ensures forall i :: 0 <= i < |r| ==> !IsMarkup(r[i])
  {
    if s == [] then [] else EscapeChar(s[0]) + Escape(s[1..])
  }

  predicate StartsWith(s: string, prefix: string) {
    |prefix| <= |s| && s[..|prefix|] == prefix
  }

  /** Decoding of the five entities Escape produces; every other character stands for itself. */
  function Unescape(s: string): string
    decreases |s|
  {
    if s == [] then []
    else if StartsWith(s, "&amp;") then "&" + Unescape(s[5..])
    else if StartsWith(s, "&lt;") then "<" + Unescape(s[4..])
    else if StartsWith(s, "&gt;") then ">" + Unescape(s[4..])
    else if StartsWith(s, "&quot;") then "\"" + Unescape(s[6..])
    else if StartsWith(s, "&#x27;") then "'" + Unescape(s[6..])
    else [s[0]] + Unescape(s[1..])
  }

  /** A prefix that differs from `t` at position `i` is not a prefix of `t`. */
  lemma NotPrefixAt(t: string, prefix: string, i: nat)
    requires i < |prefix| && i < |t| && t[i] != prefix[i]
    ensures !StartsWith(t, prefix)
  {
  }

  lemma PrefixOf(prefix: string, rest: string)
    ensures StartsWith(prefix + rest, prefix)
    ensures (prefix + rest)[|prefix|..] == rest
  {
    assert (prefix + rest)[..|prefix|] == prefix;
  }

  /** Decoding one escaped character off the front. */
  lemma UnescapeStep(c: char, rest: string)
    ensures Unescape(EscapeChar(c) + rest) == [c] + Unescape(rest)
  {
    var e := EscapeChar(c);
    var t := e + rest;
    PrefixOf(e, rest);
    if c == '&' {
    } else if c == '<' {
      NotPrefixAt(t, "&amp;", 1);
    } else if c == '>' {
      NotPrefixAt(t, "&amp;", 1);
      NotPrefixAt(t, "&lt;", 1);
    } else if c == '"' {
      NotPrefixAt(t, "&amp;", 1);
      NotPrefixAt(t, "&lt;", 1);
      NotPrefixAt(t, "&gt;", 1);
    } else if c == '\'' {
      NotPrefixAt(t, "&amp;", 1);
      NotPrefixAt(t, "&lt;", 1);
      NotPrefixAt(t, "&gt;", 1);
      NotPrefixAt(t, "&quot;", 1);
    } else {
      assert e == [c];
      NotPrefixAt(t, "&amp;", 0);
      NotPrefixAt(t, "&lt;", 0);
      NotPrefixAt(t, "&gt;", 0);
      NotPrefixAt(t, "&quot;", 0);
      NotPrefixAt(t, "&#x27;", 0);
    }
  }

  /** Escaping loses nothing: decoding gives the original text back. */
  lemma {:induction false} UnescapeEscape(s: string)
    ensures Unescape(Escape(s)) == s
  {
    if s != [] {
      UnescapeStep(s[0], Escape(s[1..]));
      UnescapeEscape(s[1..]);
      assert [s[0]] + s[1..] == s;
    }
  }

  /** Text with none of the five characters `html.escape` replaces. */
  predicate Plain(s: string) {
    forall i :: 0 <= i < |s| ==> !IsMarkup(s[i]) && s[i] != '&'
  }

  /** Escaping leaves plain text unchanged. */
  lemma {:induction false} EscapePlain(s: string)
    requires Plain(s)
    ensures Escape(s) == s
  {
    if s != [] {
      assert Plain(s[1..]) by {
        forall i | 0 <= i < |s[1..]| ensures !IsMarkup(s[1..][i]) && s[1..][i] != '&' {
          assert s[1..][i] == s[i + 1];
        }
      }
      EscapePlain(s[1..]);
      assert [s[0]] + s[1..] == s;
    }
  }

  // ---------------------------------------------------------------------------
  // Paragraph rendering.

  /** Each paragraph, escaped, between `<p>` and `</p>`, concatenated. */
  function ParagraphsToHtml(paragraphs: seq<string>): (r: string)
    ensures r == "" <==> paragraphs == []
    ensures |r| >= 7 * |paragraphs|
  {
    if paragraphs == [] then ""
    else "<p>" + Escape(paragraphs[0]) + "</p>" + ParagraphsToHtml(paragraphs[1..])
  }

  lemma {:induction false} ParagraphsToHtmlAppend(a: seq<string>, b: seq<string>)
    ensures ParagraphsToHtml(a + b) == ParagraphsToHtml(a) + ParagraphsToHtml(b)
  {
    if a == [] {
      assert a + b == b;
    } else {
      assert (a + b)[0] == a[0];
      assert (a + b)[1..] == a[1..] + b;
      ParagraphsToHtmlAppend(a[1..], b);
    }
  }

  /** A reader of rendered paragraphs: `<p>text</p>` repeated, the text decoded. */
  function ParseParagraphs(s: string): Option<seq<string>>
    decreases |s|
  {
    if s == [] then Some([])
    else if !StartsWith(s, "<p>") then None
    else
      var n := IndexOf(s[3..], '<');
      var rest := s[3 + n..];
      if !StartsWith(rest, "</p>") then None
      else match ParseParagraphs(rest[4..])
        case None => None
        case Some(ps) => Some([Unescape(s[3..3 + n])] + ps)
  }

  /** Reading one rendered paragraph off the front. */
  lemma ParseOne(e: string, tail: string)
    requires forall i :: 0 <= i < |e| ==> e[i] != '<'
    ensures ParseParagraphs("<p>" + e + "</p>" + tail)
      == match ParseParagraphs(tail)
         case None => None
         case Some(ps) => Some([Unescape(e)] + ps)
  {
    var s := "<p>" + e + "</p>" + tail;
    assert StartsWith(s, "<p>") by { assert s[..3] == "<p>"; }
    assert s[3..] == e + ("</p>" + tail);
    IndexOfAfter(e, '<', "</p>" + tail);
    assert s[3..3 + |e|] == e;
    assert s[3 + |e|..] == "</p>" + tail;
    assert StartsWith("</p>" + tail, "</p>");
    assert ("</p>" + tail)[4..] == tail;
  }

  /** Rendering can be read back: the paragraphs come out as they went in. */
  lemma {:induction false} ParseRendered(paragraphs: seq<string>)
    ensures ParseParagraphs(ParagraphsToHtml(paragraphs)) == Some(paragraphs)
  {
    if paragraphs != [] {
      var e := Escape(paragraphs[0]);
      ParseOne(e, ParagraphsToHtml(paragraphs[1..]));
      ParseRendered(paragraphs[1..]);
      UnescapeEscape(paragraphs[0]);
      assert [paragraphs[0]] + paragraphs[1..] == paragraphs;
    }
  }

  // ---------------------------------------------------------------------------
  // CDATA safety: the rendered HTML never contains the terminator `]]>`.

  /** Every `>` is directly preceded by a `p`. */
  predicate GtFollowsP(s: string) {
    forall i :: 0 <= i < |s| && s[i] == '>' ==> 0 < i && s[i - 1] == 'p'
  }

  /** No `]]>` anywhere in `s`. */
  predicate NoCdataEnd(s: string) {
    forall i :: 0 <= i < |s| - 2 ==> !(s[i] == ']' && s[i + 1] == ']' && s[i + 2] == '>')
  }

  lemma GtFollowsPConcat(a: string, b: string)
    requires GtFollowsP(a) && GtFollowsP(b)
    ensures GtFollowsP(a + b)
  {
    forall i | 0 <= i < |a + b| && (a + b)[i] == '>'
      ensures 0 < i && (a + b)[i - 1] == 'p'
    {
      if i >= |a| {
        assert b[i - |a|] == '>';
      }
    }
  }

  lemma {:induction false} RenderedGtFollowsP(paragraphs: seq<string>)
    ensures GtFollowsP(ParagraphsToHtml(paragraphs))
  {
    if paragraphs != [] {
      var e := Escape(paragraphs[0]);
      RenderedGtFollowsP(paragraphs[1..]);
      assert GtFollowsP("<p>") by { assert "<p>"[2] == '>'; }
      assert GtFollowsP("</p>") by { assert "</p>"[3] == '>'; }
      GtFollowsPConcat("<p>", e);
      GtFollowsPConcat("<p>" + e, "</p>");
      GtFollowsPConcat("<p>" + e + "</p>", ParagraphsToHtml(paragraphs[1..]));
    }
  }

  lemma NoCdataEndWhenGtFollowsP(s: string)
    requires GtFollowsP(s)
    ensures NoCdataEnd(s)
  {
    forall i | 0 <= i < |s| - 2
      ensures !(s[i] == ']' && s[i + 1] == ']' && s[i + 2] == '>')
    {
      if s[i + 2] == '>' {
        assert s[i + 1] == 'p';
      }
    }
  }

  /** The rendered paragraphs can be placed in a CDATA section unchanged. */
  lemma RenderedHasNoCdataEnd(paragraphs: seq<string>)
    ensures NoCdataEnd(ParagraphsToHtml(paragraphs))
  {
    RenderedGtFollowsP(paragraphs);
    NoCdataEndWhenGtFollowsP(ParagraphsToHtml(paragraphs));
  }
}
