/**
  Snippet extraction (`extract_paragraphs`).

  The HTML parse is abstracted: `texts` holds, in document order, the
  whitespace-joined stripped text of every `p`, `blockquote` and `li` node of
  the article body. The rest is the source's list policy: keep the non-empty
  texts up to a cap of 20, top up with the fallback text and a placeholder,
  and mark truncation.
*/
module Extractor {
  import opened Wrappers

  const CAP := 20
  const UNAVAILABLE := "Top DEV.to article snippet unavailable."
  const READ_MORE := "Read the rest of the article at the source."

  /** The non-empty texts, in order (the candidate nodes the source keeps). */
  function NonEmpty(texts: seq<string>): (r: seq<string>)
    ensures |r| <= |texts|
    ensures forall i :: 0 <= i < |r| ==> r[i] != ""
  {
    if texts == [] then []
    else NonEmpty(texts[..|texts| - 1]) + (if texts[|texts| - 1] != "" then [texts[|texts| - 1]] else [])
  }

  lemma {:induction false} NonEmptyAppend(a: seq<string>, b: seq<string>)
    ensures NonEmpty(a + b) == NonEmpty(a) + NonEmpty(b)
    decreases |b|
  {
    if b == [] {
      assert a + b == a;
    } else {
      var b' := b[..|b| - 1];
      assert (a + b)[..|a + b| - 1] == a + b';
      NonEmptyAppend(a, b');
    }
  }

  /** Membership in NonEmpty is exactly "a non-empty candidate". */
  lemma {:induction false} NonEmptyMembers(texts: seq<string>, t: string)
    ensures t in NonEmpty(texts) <==> t in texts && t != ""
  {
    if texts != [] {
      var init := texts[..|texts| - 1];
      NonEmptyMembers(init, t);
      assert texts == init + [texts[|texts| - 1]];
    }
  }

  /** The list before the final slice: snippets, fallback, placeholder and marker, stage by stage. */
  function Marked(texts: seq<string>, fallback: Option<string>): seq<string> {
    var snippets := Take(NonEmpty(texts), CAP);
    var withFallback := if |snippets| < 2 && Truthy(fallback) then snippets + [fallback.value] else snippets;
    var padded := if |withFallback| < 2 then withFallback + [UNAVAILABLE] else withFallback;
    if |NonEmpty(texts)| > CAP && |padded| >= CAP then padded + [READ_MORE] else padded
  }

  /** The result the source returns: `paragraphs[:21]`. */
  function Extract(texts: seq<string>, fallback: Option<string>): seq<string> {
    Take(Marked(texts, fallback), CAP + 1)
  }

  method ExtractParagraphs(texts: seq<string>, fallback: Option<string>) returns (paragraphs: seq<string>)
    ensures paragraphs == Extract(texts, fallback)
  {
    paragraphs := [];
    var i := 0;
    while i < |texts|
      invariant 0 <= i <= |texts|
      invariant paragraphs == NonEmpty(texts[..i])
      invariant |paragraphs| < CAP
    {
      NonEmptySnoc(texts, i);
      var text := texts[i];
      i := i + 1;
      if text == "" {
        continue;
      }
      paragraphs := paragraphs + [text];
      if |paragraphs| >= CAP {
        break;
      }
    }
    ScanComplete(texts, i);

    if |paragraphs| < 2 && Truthy(fallback) {
      paragraphs := paragraphs + [fallback.value];
    }
    if |paragraphs| < 2 {
      paragraphs := paragraphs + [UNAVAILABLE];
    }
    var total := |NonEmpty(texts)|;
    if total > CAP && |paragraphs| >= CAP {
      paragraphs := paragraphs + [READ_MORE];
    }
    paragraphs := Take(paragraphs, CAP + 1);
  }

  /** One more candidate: kept when it is non-empty. */
  lemma NonEmptySnoc(texts: seq<string>, i: nat)
    requires i < |texts|
    ensures NonEmpty(texts[..i + 1]) == NonEmpty(texts[..i]) + (if texts[i] != "" then [texts[i]] else [])
  {
    assert texts[..i + 1][..i] == texts[..i];
  }

  /** The scan stops at the end of the candidates or with 20 kept: it has kept the first 20, or all. */
  lemma ScanComplete(texts: seq<string>, i: nat)
    requires i <= |texts|
    requires |NonEmpty(texts[..i])| <= CAP
    requires i == |texts| || |NonEmpty(texts[..i])| == CAP
    ensures Take(NonEmpty(texts), CAP) == NonEmpty(texts[..i])
  {
    NonEmptyAppend(texts[..i], texts[i..]);
    assert texts[..i] + texts[i..] == texts;
  }

  // ---------------------------------------------------------------------------
  // What the result is, case by case on the number of non-empty candidates.

  /**
    The complete outcome: with `k` non-empty candidates `s`,
    k = 0 gives [fallback, placeholder] or [placeholder];
    k = 1 gives [s0, fallback] or [s0, placeholder];
    2 <= k <= 20 gives s; k > 20 gives the first 20 of s and the marker.
  */
  lemma ExtractCases(texts: seq<string>, fallback: Option<string>)
    ensures var s := NonEmpty(texts); var r := Extract(texts, fallback);
      && (|s| == 0 && Truthy(fallback) ==> r == [fallback.value, UNAVAILABLE])
      && (|s| == 0 && !Truthy(fallback) ==> r == [UNAVAILABLE])
      && (|s| == 1 && Truthy(fallback) ==> r == [s[0], fallback.value])
      && (|s| == 1 && !Truthy(fallback) ==> r == [s[0], UNAVAILABLE])
      && (2 <= |s| <= CAP ==> r == s)
      && (|s| > CAP ==> r == s[..CAP] + [READ_MORE])
  {
    ExtractSliceKeepsAll(texts, fallback);
  }

  /** Between one and twenty-one entries, always. */
  lemma ExtractBounds(texts: seq<string>, fallback: Option<string>)
    ensures 1 <= |Extract(texts, fallback)| <= CAP + 1
  {
    ExtractCases(texts, fallback);
  }

  /** The first min(20, k) entries are the first min(20, k) non-empty candidates. */
  lemma ExtractPrefix(texts: seq<string>, fallback: Option<string>)
    ensures var m := Min(CAP, |NonEmpty(texts)|);
      m <= |Extract(texts, fallback)| && Extract(texts, fallback)[..m] == NonEmpty(texts)[..m]
  {
    ExtractCases(texts, fallback);
  }

  /** The truncation marker is entry 21 exactly when more than 20 candidates are non-empty. */
  lemma ExtractMarker(texts: seq<string>, fallback: Option<string>)
    ensures var r := Extract(texts, fallback);
      (|r| == CAP + 1 && r[CAP] == READ_MORE) <==> |NonEmpty(texts)| > CAP
    ensures |NonEmpty(texts)| <= CAP ==> |Extract(texts, fallback)| <= CAP
  {
    ExtractCases(texts, fallback);
  }

  /**
    What follows the snippets: with fewer than two, the fallback when it is
    non-empty and then the placeholder if still fewer than two; with two or
    more, nothing but the truncation marker when there were more than 20.
  */
  lemma ExtractFallback(texts: seq<string>, fallback: Option<string>)
    ensures var r := Extract(texts, fallback); var k := |NonEmpty(texts)|;
      k < 2 ==>
        k <= |r| && r[k..] ==
          (if Truthy(fallback) then [fallback.value] else [])
          + (if k + (if Truthy(fallback) then 1 else 0) < 2 then [UNAVAILABLE] else [])
    ensures var r := Extract(texts, fallback); var k := |NonEmpty(texts)|;
      k >= 2 ==> Min(k, CAP) <= |r| && r[Min(k, CAP)..] == if k > CAP then [READ_MORE] else []
  {
    ExtractCases(texts, fallback);
  }

  /** The final slice to 21 entries never removes anything. */
  lemma ExtractSliceKeepsAll(texts: seq<string>, fallback: Option<string>)
    ensures |Marked(texts, fallback)| <= CAP + 1
    ensures Extract(texts, fallback) == Marked(texts, fallback)
  {
  }

  /** Examples: no candidates with fallback "hello"; 25 non-empty candidates. */
  lemma ExtractExamples(texts: seq<string>)
    requires |texts| == 25 && forall i :: 0 <= i < 25 ==> texts[i] != ""
    ensures Extract([], Some("hello")) == ["hello", UNAVAILABLE]
    ensures Extract([], None) == [UNAVAILABLE]
    ensures Extract(["", ""], Some("")) == [UNAVAILABLE]
    ensures Extract(texts, None) == texts[..CAP] + [READ_MORE]
  {
    assert NonEmpty(texts) == texts by { NonEmptyKeepsAll(texts); }
    assert NonEmpty(["", ""]) == [] by {
      assert ["", ""][..1] == [""];
      assert [""][..0] == [];
    }
  }

  lemma {:induction false} NonEmptyKeepsAll(texts: seq<string>)
    requires forall i :: 0 <= i < |texts| ==> texts[i] != ""
    ensures NonEmpty(texts) == texts
  {
    if texts != [] {
      NonEmptyKeepsAll(texts[..|texts| - 1]);
    }
  }
}
