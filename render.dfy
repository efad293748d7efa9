/** renderFig and the fit test built on it. The go-figure glyph renderer is not modelled:
    it is a parameter, an arbitrary deterministic function from (text, font) to block art. */
module Render {
  import opened Strings
  import opened Helpers

  /** The glyph renderer: (ASCII text, font name) -> multi-line block art. */
  type Renderer = (String, String) -> String

  /** What renderFig returns: the sanitized text rendered, trailing line breaks trimmed. */
  function Rendered(text: String, font: String, render: Renderer): String
  {
    TrimRight(render(Ascii(text), font), '\n')
  }

  /** Renders the sanitized text and trims the trailing line breaks. */
  method RenderFig(text: String, font: String, render: Renderer) returns (r: String)
    ensures r == Rendered(text, font, render)
    ensures r <= render(Ascii(text), font)
    ensures r == [] || r[|r| - 1] != '\n'
  {
    var clean := SanitizeASCII(text);
    var art := render(clean, font);
    r := TrimRight(art, '\n');
    TrimRightShape(art, '\n');
  }

  /** The trim never changes the width: a rendering is as wide as the renderer's block art. */
  lemma RenderedWidth(text: String, font: String, render: Renderer)
    ensures Width(Rendered(text, font, render)) == Width(render(Ascii(text), font))
  {
    TrimKeepsWidth(render(Ascii(text), font));
  }

  /** The single-shot fit test: the rendering of text is at most maxW columns wide. */
  predicate FitsText(text: String, font: String, maxW: int, render: Renderer)
  {
    Width(Rendered(text, font, render)) <= maxW
  }

  /** The fit test as the source runs it: maxLineWidth(renderFig(text, font)) <= maxW. */
  method CheckFits(text: String, font: String, maxW: int, render: Renderer) returns (fits: bool)
    ensures fits == FitsText(text, font, maxW, render)
  {
    var r := RenderFig(text, font, render);
    var w := MaxLineWidth(r);
    fits := w <= maxW;
  }

  /** The first k items joined by sep fit. */
  predicate FitsWords(items: seq<String>, k: nat, sep: String, font: String, maxW: int, render: Renderer)
    requires k <= |items|
  {
    FitsText(Join(items[..k], sep), font, maxW, render)
  }

  /** The first k runes fit. */
  predicate FitsRunes(runes: String, k: nat, font: String, maxW: int, render: Renderer)
    requires k <= |runes|
  {
    FitsText(runes[..k], font, maxW, render)
  }

  /** The hypothesis under which the binary searches find the largest fitting prefix: for
      this font, a longer input never renders narrower than its prefix. Nothing assumes it;
      each result that needs it takes it as an explicit hypothesis. */
  ghost predicate RenderMonotone(render: Renderer, font: String)
  {
    forall a: String, b: String :: NoNarrower(render, font, a, b)
  }

  /** The rendering of b is at least as wide as that of its prefix a. */
  predicate NoNarrower(render: Renderer, font: String, a: String, b: String)
  {
    a <= b ==> Width(render(a, font)) <= Width(render(b, font))
  }

  /** Fitting is downward closed in the number of joined items: what the word search relies on.
      It follows from RenderMonotone (lemma WordPrefixesFit). */
  ghost predicate WordFitsClosed(items: seq<String>, sep: String, font: String, maxW: int, render: Renderer)
  {
    forall j: nat, k: nat :: j <= k <= |items| && FitsWords(items, k, sep, font, maxW, render) ==>
      FitsWords(items, j, sep, font, maxW, render)
  }

  /** Fitting is downward closed in the number of runes: what the rune search relies on.
      It follows from RenderMonotone (lemma RunePrefixesFit). */
  ghost predicate RuneFitsClosed(runes: String, font: String, maxW: int, render: Renderer)
  {
    forall j: nat, k: nat :: j <= k <= |runes| && FitsRunes(runes, k, font, maxW, render) ==>
      FitsRunes(runes, j, font, maxW, render)
  }

  /** Under the hypothesis, if a text fits then so does each of its prefixes. */
  lemma FitsPrefix(s: String, t: String, font: String, maxW: int, render: Renderer)
    requires RenderMonotone(render, font)
    requires s <= t
    requires FitsText(t, font, maxW, render)
    ensures FitsText(s, font, maxW, render)
  {
    AsciiPrefix(s, t);
    assert NoNarrower(render, font, Ascii(s), Ascii(t));
    RenderedWidth(s, font, render);
    RenderedWidth(t, font, render);
  }

  /** Under the hypothesis, fitting is downward closed in the number of joined items. */
  lemma WordPrefixesFit(items: seq<String>, sep: String, font: String, maxW: int, render: Renderer)
    ensures RenderMonotone(render, font) ==> WordFitsClosed(items, sep, font, maxW, render)
  {
    if RenderMonotone(render, font) {
      forall j: nat, k: nat | j <= k <= |items| && FitsWords(items, k, sep, font, maxW, render)
        ensures FitsWords(items, j, sep, font, maxW, render)
      {
        JoinPrefix(items, j, k, sep);
        FitsPrefix(Join(items[..j], sep), Join(items[..k], sep), font, maxW, render);
      }
    }
  }

  /** Under the hypothesis, fitting is downward closed in the number of runes. */
  lemma RunePrefixesFit(runes: String, font: String, maxW: int, render: Renderer)
    ensures RenderMonotone(render, font) ==> RuneFitsClosed(runes, font, maxW, render)
  {
    if RenderMonotone(render, font) {
      forall j: nat, k: nat | j <= k <= |runes| && FitsRunes(runes, k, font, maxW, render)
        ensures FitsRunes(runes, j, font, maxW, render)
      {
        assert runes[..j] <= runes[..k];
        FitsPrefix(runes[..j], runes[..k], font, maxW, render);
      }
    }
  }
}
