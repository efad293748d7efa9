/** wrapFiglet: the font ladder. The preferred font is tried first, then the fixed tiers from
    large to small; the first font tryWrap succeeds with wins, and "term" is the last resort. */
module Ladder {
  import opened Strings
  import opened Helpers
  import opened Render
  import opened Pack

  /** The fallback fonts, from large to small. */
  const FontTiers: seq<String> := ["big", "standard", "small", "mini", "term"]

  /** The number of figlet rows the caller allows. */
  const MaxFigLines := 3

  /** No font name occurs twice. */
  predicate Distinct(fonts: seq<String>)
  {
    forall a, b :: 0 <= a < b < |fonts| ==> fonts[a] != fonts[b]
  }

  /** The fonts other than f, in their order. */
  function Without(fonts: seq<String>, f: String): seq<String>
    decreases |fonts|
  {
    if fonts == [] then []
    else if fonts[|fonts| - 1] == f then Without(fonts[..|fonts| - 1], f)
    else Without(fonts[..|fonts| - 1], f) + [fonts[|fonts| - 1]]
  }

  /** The order wrapFiglet tries fonts in: the preferred one, then every other tier. */
  function FontOrder(preferred: String): seq<String>
  {
    [preferred] + Without(FontTiers, preferred)
  }

  /** What the packing with the given cut gives for each font of the list. */
  function Attempts(cut: Cut, text: String, fonts: seq<String>, maxW: int, maxLines: int, render: Renderer)
      : seq<(String, bool)>
  {
    seq(|fonts|, k requires 0 <= k < |fonts| => WrapSpec(cut, text, fonts[k], maxW, maxLines, render))
  }

  /** The first attempt from position k on that succeeded, with its font; when none did,
      the fallback rows and "term". */
  function FirstFit(attempts: seq<(String, bool)>, fonts: seq<String>, k: nat, fallback: String): (String, String)
    requires |attempts| == |fonts| && k <= |fonts|
    decreases |fonts| - k
  {
    if k == |fonts| then (fallback, "term")
    else if attempts[k].1 then (attempts[k].0, fonts[k])
    else FirstFit(attempts, fonts, k + 1, fallback)
  }

  /** The ladder: the first font whose packing succeeds, with that packing; when none does,
      the "term" packing, whatever its outcome. LadderSpec(Searched, ...) is what wrapFiglet
      computes; LadderSpec(Largest, ...) is the ladder over the reference packing. */
  function LadderSpec(cut: Cut, text: String, fonts: seq<String>, maxW: int, maxLines: int, render: Renderer)
      : (String, String)
  {
    FirstFit(Attempts(cut, text, fonts, maxW, maxLines, render), fonts, 0,
             WrapSpec(cut, text, "term", maxW, maxLines, render).0)
  }

  /** Every font in the list renders monotonically. */
  ghost predicate MonotoneFonts(render: Renderer, fonts: seq<String>)
  {
    forall k :: 0 <= k < |fonts| ==> RenderMonotone(render, fonts[k])
  }

  // ---- the font order ----

  /** Without keeps exactly the fonts other than f. */
  lemma {:induction false} WithoutMembers(fonts: seq<String>, f: String)
    ensures forall g :: g in Without(fonts, f) <==> g in fonts && g != f
    decreases |fonts|
  {
    if fonts != [] {
      var init := fonts[..|fonts| - 1];
      WithoutMembers(init, f);
      assert fonts == init + [fonts[|fonts| - 1]];
    }
  }

  /** Without adds no repeats. */
  lemma {:induction false} WithoutDistinct(fonts: seq<String>, f: String)
    requires Distinct(fonts)
    ensures Distinct(Without(fonts, f))
    decreases |fonts|
  {
    if fonts != [] {
      var init := fonts[..|fonts| - 1];
      var last := fonts[|fonts| - 1];
      forall a, b | 0 <= a < b < |init| ensures init[a] != init[b] {
        assert init[a] == fonts[a] && init[b] == fonts[b];
      }
      WithoutDistinct(init, f);
      WithoutMembers(init, f);
      assert last !in init by {
        forall a | 0 <= a < |init| ensures init[a] != last {
          assert init[a] == fonts[a];
        }
      }
    }
  }

  /** Without leaves a list without f as it is. */
  lemma {:induction false} WithoutAbsent(fonts: seq<String>, f: String)
    requires f !in fonts
    ensures Without(fonts, f) == fonts
    decreases |fonts|
  {
    if fonts != [] {
      var init := fonts[..|fonts| - 1];
      assert fonts == init + [fonts[|fonts| - 1]];
      WithoutAbsent(init, f);
    }
  }

  /** The preferred font comes first, every tier is tried, nothing else is, and no font twice. */
  lemma FontOrderShape(preferred: String)
    ensures FontOrder(preferred)[0] == preferred
    ensures forall f :: f in FontTiers ==> f in FontOrder(preferred)
    ensures forall f :: f in FontOrder(preferred) ==> f == preferred || f in FontTiers
    ensures Distinct(FontOrder(preferred))
    ensures |FontOrder(preferred)| == if preferred in FontTiers then |FontTiers| else |FontTiers| + 1
    ensures preferred !in FontTiers ==> FontOrder(preferred) == [preferred] + FontTiers
  {
    assert Distinct(FontTiers);
    WithoutMembers(FontTiers, preferred);
    WithoutDistinct(FontTiers, preferred);
    if preferred !in FontTiers {
      WithoutAbsent(FontTiers, preferred);
    }
    var rest := Without(FontTiers, preferred);
    assert forall k :: 1 <= k < |FontOrder(preferred)| ==> FontOrder(preferred)[k] == rest[k - 1];
    WithoutLength(FontTiers, preferred);
  }

  /** The tiers: five fonts, none listed twice, ending in "term", the font wrapFiglet falls back
      to, which every font order therefore tries; the caller's row limit is three rows. */
  lemma FontTiersShape()
    ensures |FontTiers| == 5 && FontTiers[|FontTiers| - 1] == "term"
    ensures Distinct(FontTiers)
    ensures forall p :: "term" in FontOrder(p)
    ensures RowBudget(MaxFigLines) == 3
  {
    forall p ensures "term" in FontOrder(p) {
      FontOrderShape(p);
    }
  }

  /** Without drops one entry for each copy of f. */
  lemma {:induction false} WithoutLength(fonts: seq<String>, f: String)
    requires Distinct(fonts)
    ensures |Without(fonts, f)| == if f in fonts then |fonts| - 1 else |fonts|
    decreases |fonts|
  {
    if fonts != [] {
      var init := fonts[..|fonts| - 1];
      assert Distinct(init);
      WithoutLength(init, f);
      assert fonts == init + [fonts[|fonts| - 1]];
      assert fonts[|fonts| - 1] !in init;
    }
  }

  // ---- the reference ladder ----

  /** From k on, the first success is the one at j. */
  lemma {:induction false} FirstFitAt(attempts: seq<(String, bool)>, fonts: seq<String>, k: nat, j: nat, fallback: String)
    requires |attempts| == |fonts| && k <= j < |fonts|
    requires attempts[j].1
    requires forall i :: k <= i < j ==> !attempts[i].1
    ensures FirstFit(attempts, fonts, k, fallback) == (attempts[j].0, fonts[j])
    decreases j - k
  {
    if k < j {
      FirstFitAt(attempts, fonts, k + 1, j, fallback);
    }
  }

  /** From k on, with no success, the fallback. */
  lemma {:induction false} FirstFitNone(attempts: seq<(String, bool)>, fonts: seq<String>, k: nat, fallback: String)
    requires |attempts| == |fonts| && k <= |fonts|
    requires forall i :: k <= i < |fonts| ==> !attempts[i].1
    ensures FirstFit(attempts, fonts, k, fallback) == (fallback, "term")
    decreases |fonts| - k
  {
    if k < |fonts| {
      FirstFitNone(attempts, fonts, k + 1, fallback);
    }
  }

  /** From k on, the pick is a success at some position from k, or the fallback. */
  lemma {:induction false} FirstFitChoice(attempts: seq<(String, bool)>, fonts: seq<String>, k: nat, fallback: String)
    requires |attempts| == |fonts| && k <= |fonts|
    ensures var (r, used) := FirstFit(attempts, fonts, k, fallback);
            (used == "term" && r == fallback) || exists j :: k <= j < |fonts| && attempts[j] == (r, true) && fonts[j] == used
    decreases |fonts| - k
  {
    if k < |fonts| && !attempts[k].1 {
      FirstFitChoice(attempts, fonts, k + 1, fallback);
    }
  }

  /** The ladder stops at the first font that succeeds. */
  lemma LadderPicksFirst(cut: Cut, text: String, fonts: seq<String>, k: nat, maxW: int, maxLines: int,
                         render: Renderer)
    requires k < |fonts|
    requires WrapSpec(cut, text, fonts[k], maxW, maxLines, render).1
    requires forall j :: 0 <= j < k ==> !WrapSpec(cut, text, fonts[j], maxW, maxLines, render).1
    ensures LadderSpec(cut, text, fonts, maxW, maxLines, render)
            == (WrapSpec(cut, text, fonts[k], maxW, maxLines, render).0, fonts[k])
  {
    var attempts := Attempts(cut, text, fonts, maxW, maxLines, render);
    FirstFitAt(attempts, fonts, 0, k, WrapSpec(cut, text, "term", maxW, maxLines, render).0);
  }

  /** When every font fails, the ladder falls back to "term". */
  lemma LadderFallsBack(cut: Cut, text: String, fonts: seq<String>, maxW: int, maxLines: int, render: Renderer)
    requires forall j :: 0 <= j < |fonts| ==> !WrapSpec(cut, text, fonts[j], maxW, maxLines, render).1
    ensures LadderSpec(cut, text, fonts, maxW, maxLines, render)
            == (WrapSpec(cut, text, "term", maxW, maxLines, render).0, "term")
  {
    var attempts := Attempts(cut, text, fonts, maxW, maxLines, render);
    FirstFitNone(attempts, fonts, 0, WrapSpec(cut, text, "term", maxW, maxLines, render).0);
  }

  /** The font the ladder picks is one of the fonts or "term"; unless it is "term" that font
      succeeded with exactly the rows picked, and "term" comes with its own packing. */
  lemma LadderChoice(cut: Cut, text: String, fonts: seq<String>, maxW: int, maxLines: int, render: Renderer)
    ensures LadderSpec(cut, text, fonts, maxW, maxLines, render).1 in fonts + ["term"]
    ensures var (r, used) := LadderSpec(cut, text, fonts, maxW, maxLines, render);
            (used == "term" && r == WrapSpec(cut, text, "term", maxW, maxLines, render).0)
            || WrapSpec(cut, text, used, maxW, maxLines, render) == (r, true)
  {
    var attempts := Attempts(cut, text, fonts, maxW, maxLines, render);
    FirstFitChoice(attempts, fonts, 0, WrapSpec(cut, text, "term", maxW, maxLines, render).0);
  }

  /** With monotone renderers for every font tried and for "term", the ladder over the
      searched packing is the ladder over the reference packing. */
  lemma LadderAgree(text: String, fonts: seq<String>, maxW: int, maxLines: int, render: Renderer)
    requires MonotoneFonts(render, fonts) && RenderMonotone(render, "term")
    ensures LadderSpec(Searched, text, fonts, maxW, maxLines, render)
            == LadderSpec(Largest, text, fonts, maxW, maxLines, render)
  {
    forall k | 0 <= k < |fonts|
      ensures WrapSpec(Searched, text, fonts[k], maxW, maxLines, render)
              == WrapSpec(Largest, text, fonts[k], maxW, maxLines, render)
    {
      WrapSpecAgree(text, fonts[k], maxW, maxLines, render);
    }
    assert Attempts(Searched, text, fonts, maxW, maxLines, render)
           == Attempts(Largest, text, fonts, maxW, maxLines, render);
    WrapSpecAgree(text, "term", maxW, maxLines, render);
  }

  // ---- wrapFiglet ----

  /** Tries each font of FontOrder(preferred) with tryWrap and returns the first success and its
      font; when none succeeds, the "term" packing, and "term": the ladder over the searched
      packing, for any renderer. Every line fits maxW columns, and unless the whole text fits
      as one row there are at most maxLines rows. The ghost outputs are the outcome, rows and
      pieces of the tryWrap call whose result is returned. Text that fits the preferred font,
      or has no words, is always shown in the preferred font. With monotone renderers for the
      fonts tried this is the reference ladder. */
  method WrapFiglet(text: String, preferred: String, maxW: int, maxLines: int, render: Renderer)
      returns (result: String, used: String, ghost ok: bool, ghost rows: seq<String>, ghost pieces: seq<Piece>)
    ensures (result, used) == LadderSpec(Searched, text, FontOrder(preferred), maxW, maxLines, render)
    ensures used in FontOrder(preferred)
    ensures !ok ==> used == "term"
    ensures 0 <= maxW ==> Width(result) <= maxW
    ensures FitsText(text, used, maxW, render) ==> result == Rendered(text, used, render)
    ensures !FitsText(text, used, maxW, render) ==> result == Join(rows, "\n")
    ensures |rows| <= RowBudget(maxLines)
    ensures RowsFrom(rows, pieces, used, maxW, render)
    ensures !FitsText(text, used, maxW, render) ==> (ok <==> Spelled(pieces) == NonSpace(text))
    ensures FitsText(text, preferred, maxW, render) ==> used == preferred
    ensures Fields(text) == [] ==> used == preferred
    ensures MonotoneFonts(render, FontOrder(preferred)) ==>
              (result, used) == LadderSpec(Largest, text, FontOrder(preferred), maxW, maxLines, render)
  {
    var fonts := [preferred];
    for j := 0 to |FontTiers|
      invariant fonts == [preferred] + Without(FontTiers[..j], preferred)
    {
      var f := FontTiers[j];
      assert FontTiers[..j + 1] == FontTiers[..j] + [f];
      if f != preferred {
        fonts := fonts + [f];
      }
    }
    assert FontTiers[..|FontTiers|] == FontTiers;
    FontOrderShape(preferred);
    assert fonts[0] == preferred;
    assert "term" in FontTiers;
    if MonotoneFonts(render, fonts) {
      var t :| 0 <= t < |fonts| && fonts[t] == "term";
      assert RenderMonotone(render, fonts[t]);
      LadderAgree(text, fonts, maxW, maxLines, render);
    }

    ghost var attempts := Attempts(Searched, text, fonts, maxW, maxLines, render);
    ghost var fallback := WrapSpec(Searched, text, "term", maxW, maxLines, render).0;
    for k := 0 to |fonts|
      invariant FirstFit(attempts, fonts, k, fallback) == LadderSpec(Searched, text, fonts, maxW, maxLines, render)
      invariant k > 0 ==> !FitsText(text, preferred, maxW, render) && Fields(text) != []
    {
      var r, success;
      r, success, rows, pieces := TryWrap(text, fonts[k], maxW, maxLines, render);
      assert attempts[k] == (r, success);
      if success {
        return r, fonts[k], true, rows, pieces;
      }
    }

    var success;
    result, success, rows, pieces := TryWrap(text, "term", maxW, maxLines, render);
    used, ok := "term", success;
  }
}
