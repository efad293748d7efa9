/** tryWrap: the greedy row packer. Its specification WrapSpec takes how rows are sized as a
    parameter: by the counts the binary searches return (what tryWrap computes, for any
    renderer), or by the largest fitting prefix (the reference); the two agree when width
    is monotone. */
module Pack {
  import opened Strings
  import opened Helpers
  import opened Render
  import opened Search

  /** What one packed row was rendered from: a run of whole words joined by spaces,
      or a run of runes cut from a single word that is too wide on its own. */
  datatype Piece = WordRun(words: seq<String>) | RuneRun(runes: String)

  /** The text renderFig was given for the row. */
  function PieceText(p: Piece): String
  {
    match p
    case WordRun(ws) => Join(ws, " ")
    case RuneRun(rs) => rs
  }

  /** The non-space runes the row accounts for. */
  function PieceRunes(p: Piece): String
  {
    match p
    case WordRun(ws) => Concat(ws)
    case RuneRun(rs) => rs
  }

  /** The non-space runes all the rows account for, in row order. */
  function Spelled(pieces: seq<Piece>): String
    decreases |pieces|
  {
    if |pieces| == 0 then [] else Spelled(pieces[..|pieces| - 1]) + PieceRunes(pieces[|pieces| - 1])
  }

  /** One packed row: fitWidth(renderFig(text), maxW). */
  function Row(text: String, font: String, maxW: nat, render: Renderer): String
  {
    Truncated(Rendered(text, font, render), maxW)
  }

  /** A row is its piece rendered and cut to maxW columns; a whole-word row needed no cut. */
  ghost predicate RowOf(row: String, p: Piece, font: String, maxW: int, render: Renderer)
  {
    && 0 <= maxW
    && row == Row(PieceText(p), font, maxW, render)
    && Width(row) <= maxW
    && (p.WordRun? ==> row == Rendered(PieceText(p), font, render))
  }

  /** Each row was made from the piece at the same position. */
  ghost predicate RowsFrom(rows: seq<String>, pieces: seq<Piece>, font: String, maxW: int, render: Renderer)
  {
    && |rows| == |pieces|
    && forall k {:trigger RowOf(rows[k], pieces[k], font, maxW, render)} :: 0 <= k < |rows| ==>
         RowOf(rows[k], pieces[k], font, maxW, render)
  }

  /** The most rows tryWrap may build. */
  function RowBudget(maxLines: int): nat
  {
    if maxLines < 0 then 0 else maxLines
  }

  // ---- reference definition ----

  /** How a packing sizes its rows: by the largest count that fits (the reference), or by
      the count the source's binary searches return. The two agree when width is monotone
      (lemma WrapSpecAgree). */
  datatype Cut = Largest | Searched

  /** How many of the words from i on go on the next whole-word row; 0 when not even
      word i fits alone. */
  function WordCount(cut: Cut, words: seq<String>, i: nat, font: String, maxW: int, render: Renderer): (best: nat)
    requires i < |words|
    ensures best <= |words| - i
    ensures best >= 1 ==> FitsWords(words[i..], best, " ", font, maxW, render)
  {
    match cut
    case Largest => LargestFitWords(words[i..], |words| - i, " ", font, maxW, render)
    case Searched => SearchWords(words[i..], " ", font, maxW, render)
  }

  /** How many runes of w from ci go on the next rune row: the count that fits, or one rune
      when not even one fits. */
  function RuneCut(cut: Cut, w: String, ci: nat, font: String, maxW: int, render: Renderer): (n: nat)
    requires ci < |w|
    ensures 1 <= n <= |w| - ci
  {
    var k := match cut
             case Largest => LargestFitRunes(w[ci..], |w| - ci, font, maxW, render)
             case Searched => SearchRunes(w[ci..], font, maxW, render);
    if k == 0 then 1 else k
  }

  /** Rows cut from word w starting at rune ci: each takes the next RuneCut runes, until the
      word is used up or the row budget is spent. Gives the rows and the rune position reached. */
  function ChunkRows(cut: Cut, w: String, ci: nat, rows: seq<String>, font: String, maxW: nat, maxLines: int,
                     render: Renderer): (res: (seq<String>, nat))
    requires ci <= |w|
    ensures ci <= res.1 <= |w|
    decreases |w| - ci
  {
    if ci < |w| && |rows| < maxLines then
      var n := RuneCut(cut, w, ci, font, maxW, render);
      ChunkRows(cut, w, ci + n, rows + [Row(w[ci..ci + n], font, maxW, render)], font, maxW, maxLines, render)
    else (rows, ci)
  }

  /** The rows for a word too wide to go on a row alone: none, and failure, when its first
      rune does not fit; otherwise ChunkRows from its first rune. Gives the rows and whether
      the whole word was placed. */
  function BreakRows(cut: Cut, w: String, rows: seq<String>, font: String, maxW: int, maxLines: int,
                     render: Renderer): (seq<String>, bool)
    requires w != []
  {
    if !FitsRunes(w, 1, font, maxW, render) then (rows, false)
    else
      var res := ChunkRows(cut, w, 0, rows, font, maxW, maxLines, render);
      (res.0, res.1 == |w|)
  }

  /** One round of packing at word i: a row of the WordCount words from i, or the rune rows
      of word i when not even it fits alone. Gives the rows, the next word and whether
      packing failed. */
  function Step(cut: Cut, words: seq<String>, i: nat, rows: seq<String>, font: String, maxW: int, maxLines: int,
                render: Renderer): (res: (seq<String>, nat, bool))
    requires i < |words|
    requires forall k :: 0 <= k < |words| ==> words[k] != []
    ensures i < res.1 <= |words|
  {
    var best := WordCount(cut, words, i, font, maxW, render);
    if best == 0 then
      var broken := BreakRows(cut, words[i], rows, font, maxW, maxLines, render);
      (broken.0, i + 1, !broken.1)
    else (rows + [Row(Join(words[i..i + best], " "), font, maxW, render)], i + best, false)
  }

  /** Packing from word i with rows already built, one Step at a time while words and row
      budget remain. Gives the joined rows and whether every word was used. */
  function GreedyRows(cut: Cut, words: seq<String>, i: nat, rows: seq<String>, font: String, maxW: int,
                      maxLines: int, render: Renderer): (String, bool)
    requires i <= |words|
    requires forall k :: 0 <= k < |words| ==> words[k] != []
    decreases |words| - i
  {
    if i < |words| && |rows| < maxLines then
      var step := Step(cut, words, i, rows, font, maxW, maxLines, render);
      if step.2 then (Join(step.0, "\n"), false)
      else GreedyRows(cut, words, step.1, step.0, font, maxW, maxLines, render)
    else (Join(rows, "\n"), i >= |words|)
  }

  /** The result of tryWrap: the whole text when it fits on one row, nothing for text
      without words, and the packing of its words otherwise. WrapSpec(Searched, ...) is what
      the source computes for any renderer; WrapSpec(Largest, ...) is greedy packing by the
      largest fitting prefix. */
  function WrapSpec(cut: Cut, text: String, font: String, maxW: int, maxLines: int, render: Renderer): (String, bool)
  {
    if FitsText(text, font, maxW, render) then (Rendered(text, font, render), true)
    else if Fields(text) == [] then ([], true)
    else GreedyRows(cut, Fields(text), 0, [], font, maxW, maxLines, render)
  }

  // ---- the two cuts agree under monotone width ----

  /** With monotone width, findMaxFit's count is the largest fitting run of words. */
  lemma WordCountsAgree(words: seq<String>, i: nat, font: String, maxW: int, render: Renderer)
    requires i < |words|
    requires RenderMonotone(render, font)
    ensures WordCount(Searched, words, i, font, maxW, render) == WordCount(Largest, words, i, font, maxW, render)
  {
    WordPrefixesFit(words[i..], " ", font, maxW, render);
    SearchWordsIsLargest(words[i..], " ", font, maxW, render);
  }

  /** With monotone width, findMaxRuneFit's count is the largest fitting run of runes. */
  lemma RuneCutsAgree(w: String, ci: nat, font: String, maxW: int, render: Renderer)
    requires ci < |w|
    requires RenderMonotone(render, font)
    ensures RuneCut(Searched, w, ci, font, maxW, render) == RuneCut(Largest, w, ci, font, maxW, render)
  {
    RunePrefixesFit(w[ci..], font, maxW, render);
    SearchRunesIsLargest(w[ci..], font, maxW, render);
  }

  /** With monotone width, the rune rows of a word are the same under both cuts. */
  lemma {:induction false} ChunkRowsAgree(w: String, ci: nat, rows: seq<String>, font: String, maxW: nat,
                                          maxLines: int, render: Renderer)
    requires ci <= |w|
    requires RenderMonotone(render, font)
    ensures ChunkRows(Searched, w, ci, rows, font, maxW, maxLines, render)
            == ChunkRows(Largest, w, ci, rows, font, maxW, maxLines, render)
    decreases |w| - ci
  {
    if ci < |w| && |rows| < maxLines {
      RuneCutsAgree(w, ci, font, maxW, render);
      var n := RuneCut(Searched, w, ci, font, maxW, render);
      ChunkRowsAgree(w, ci + n, rows + [Row(w[ci..ci + n], font, maxW, render)], font, maxW, maxLines, render);
    }
  }

  /** With monotone width, one round of packing is the same under both cuts. */
  lemma StepsAgree(words: seq<String>, i: nat, rows: seq<String>, font: String, maxW: int, maxLines: int,
                   render: Renderer)
    requires i < |words|
    requires forall k :: 0 <= k < |words| ==> words[k] != []
    requires RenderMonotone(render, font)
    ensures Step(Searched, words, i, rows, font, maxW, maxLines, render)
            == Step(Largest, words, i, rows, font, maxW, maxLines, render)
  {
    WordCountsAgree(words, i, font, maxW, render);
    if FitsRunes(words[i], 1, font, maxW, render) {
      ChunkRowsAgree(words[i], 0, rows, font, maxW, maxLines, render);
    }
  }

  /** With monotone width, packing from word i is the same under both cuts. */
  lemma {:induction false} GreedyRowsAgree(words: seq<String>, i: nat, rows: seq<String>, font: String, maxW: int,
                                           maxLines: int, render: Renderer)
    requires i <= |words|
    requires forall k :: 0 <= k < |words| ==> words[k] != []
    requires RenderMonotone(render, font)
    ensures GreedyRows(Searched, words, i, rows, font, maxW, maxLines, render)
            == GreedyRows(Largest, words, i, rows, font, maxW, maxLines, render)
    decreases |words| - i
  {
    if i < |words| && |rows| < maxLines {
      StepsAgree(words, i, rows, font, maxW, maxLines, render);
      var step := Step(Searched, words, i, rows, font, maxW, maxLines, render);
      if !step.2 {
        GreedyRowsAgree(words, step.1, step.0, font, maxW, maxLines, render);
      }
    }
  }

  /** With monotone width, what the source computes is greedy packing by the largest
      fitting prefix. */
  lemma WrapSpecAgree(text: String, font: String, maxW: int, maxLines: int, render: Renderer)
    requires RenderMonotone(render, font)
    ensures WrapSpec(Searched, text, font, maxW, maxLines, render) == WrapSpec(Largest, text, font, maxW, maxLines, render)
  {
    if !FitsText(text, font, maxW, render) && Fields(text) != [] {
      GreedyRowsAgree(Fields(text), 0, [], font, maxW, maxLines, render);
    }
  }

  // ---- helper lemmas for the packer ----

  lemma SpelledSnoc(pieces: seq<Piece>, p: Piece)
    ensures Spelled(pieces + [p]) == Spelled(pieces) + PieceRunes(p)
  {
    assert (pieces + [p])[..|pieces|] == pieces;
  }

  lemma RowsFromSnoc(rows: seq<String>, pieces: seq<Piece>, row: String, p: Piece,
                     font: String, maxW: int, render: Renderer)
    requires RowsFrom(rows, pieces, font, maxW, render)
    requires RowOf(row, p, font, maxW, render)
    ensures RowsFrom(rows + [row], pieces + [p], font, maxW, render)
  {
    forall k | 0 <= k < |rows| + 1
      ensures RowOf((rows + [row])[k], (pieces + [p])[k], font, maxW, render)
    {
      if k < |rows| {
        assert RowOf(rows[k], pieces[k], font, maxW, render);
      }
    }
  }

  /** Every row fits, so their join fits; with no room at all there are no rows. */
  lemma RowsFromWidth(rows: seq<String>, pieces: seq<Piece>, font: String, maxW: int, render: Renderer)
    requires RowsFrom(rows, pieces, font, maxW, render)
    ensures maxW < 0 ==> rows == []
    ensures forall k :: 0 <= k < |rows| ==> 0 <= maxW && Width(rows[k]) <= maxW
    ensures 0 <= maxW ==> Width(Join(rows, "\n")) <= maxW
  {
    if rows != [] {
      assert RowOf(rows[0], pieces[0], font, maxW, render);
    }
    forall k | 0 <= k < |rows|
      ensures 0 <= maxW && Width(rows[k]) <= maxW
    {
      assert RowOf(rows[k], pieces[k], font, maxW, render);
    }
    if 0 <= maxW {
      WidthOfJoin(rows, maxW);
    }
  }

  /** Using words up to i, and then the first ci runes of word i, spells a prefix of all the
      words: a proper one while runes of word i are left, and all words up to i + 1 when not. */
  lemma UnfinishedIsProperPrefix(words: seq<String>, i: nat, ci: nat)
    requires i < |words| && ci <= |words[i]|
    ensures Concat(words[..i]) + words[i][..ci] <= Concat(words)
    ensures ci < |words[i]| ==> Concat(words[..i]) + words[i][..ci] != Concat(words)
    ensures ci == |words[i]| ==> Concat(words[..i]) + words[i][..ci] == Concat(words[..i + 1])
  {
    ConcatPrefix(words, i);
    ConcatPrefix(words[i..], 1);
    assert words[i] == words[i][..ci] + words[i][ci..];
    if ci == |words[i]| {
      assert words[..i + 1] == words[..i] + [words[i]];
      ConcatAppend(words[..i], [words[i]]);
    }
  }

  /** Spelling a further run of runes extends the spelled prefix of the word. */
  lemma SpellMore(pieces: seq<Piece>, before: String, runes: String, ci: nat, ci2: nat)
    requires ci <= ci2 <= |runes|
    requires Spelled(pieces) == before + runes[..ci]
    ensures Spelled(pieces + [RuneRun(runes[ci..ci2])]) == before + runes[..ci2]
  {
    var run := runes[ci..ci2];
    SpelledSnoc(pieces, RuneRun(run));
    assert PieceRunes(RuneRun(run)) == run;
    assert runes[..ci] + run == runes[..ci2];
    assert (before + runes[..ci]) + run == before + (runes[..ci] + run);
  }

  /** A row of whole words extends the spelled words by those words. */
  lemma SpellWords(pieces: seq<Piece>, pieces2: seq<Piece>, words: seq<String>, i: nat, next: nat)
    requires i <= next <= |words|
    requires Spelled(pieces) == Concat(words[..i])
    requires pieces2 == pieces + [WordRun(words[i..next])]
    ensures Spelled(pieces2) == Concat(words[..next])
  {
    var run := words[i..next];
    assert words[..next] == words[..i] + run;
    ConcatAppend(words[..i], run);
    SpelledSnoc(pieces, WordRun(run));
  }

  /** One step of ChunkRows: a row of n runes, n the RuneCut. */
  lemma ChunkStep(cut: Cut, w: String, ci: nat, rows: seq<String>, ci2: nat, rows2: seq<String>, row: String,
                  font: String, maxW: nat, maxLines: int, render: Renderer)
    requires ci < ci2 <= |w| && |rows| < maxLines
    requires ci2 - ci == RuneCut(cut, w, ci, font, maxW, render)
    requires row == Row(w[ci..ci2], font, maxW, render)
    requires rows2 == rows + [row]
    ensures ChunkRows(cut, w, ci, rows, font, maxW, maxLines, render)
            == ChunkRows(cut, w, ci2, rows2, font, maxW, maxLines, render)
  {
    var n := RuneCut(cut, w, ci, font, maxW, render);
    assert rows2 == rows + [Row(w[ci..ci + n], font, maxW, render)];
  }

  /** Step when not even word i fits alone: its rune rows. */
  lemma StepBreaks(cut: Cut, words: seq<String>, i: nat, rows: seq<String>, built: seq<String>, done: bool,
                   font: String, maxW: int, maxLines: int, render: Renderer)
    requires i < |words|
    requires forall k :: 0 <= k < |words| ==> words[k] != []
    requires WordCount(cut, words, i, font, maxW, render) == 0
    requires (built, done) == BreakRows(cut, words[i], rows, font, maxW, maxLines, render)
    ensures (built, i + 1, !done) == Step(cut, words, i, rows, font, maxW, maxLines, render)
  {
    var broken := BreakRows(cut, words[i], rows, font, maxW, maxLines, render);
    assert Step(cut, words, i, rows, font, maxW, maxLines, render) == (broken.0, i + 1, !broken.1);
  }

  /** Step when best >= 1 whole words fit: one row of them. */
  lemma StepPlaces(cut: Cut, words: seq<String>, i: nat, best: nat, rows: seq<String>, built: seq<String>,
                   next: nat, stop: bool, font: String, maxW: nat, maxLines: int, render: Renderer)
    requires i < |words|
    requires forall k :: 0 <= k < |words| ==> words[k] != []
    requires best >= 1 && WordCount(cut, words, i, font, maxW, render) == best
    requires built == rows + [Row(Join(words[i..i + best], " "), font, maxW, render)]
    requires next == i + best && !stop
    ensures (built, next, stop) == Step(cut, words, i, rows, font, maxW, maxLines, render)
  {
  }

  /** One round of GreedyRows is one Step. */
  lemma GreedyStep(cut: Cut, words: seq<String>, i: nat, rows: seq<String>, built: seq<String>, next: nat,
                   stop: bool, font: String, maxW: int, maxLines: int, render: Renderer)
    requires i < |words| && |rows| < maxLines
    requires forall k :: 0 <= k < |words| ==> words[k] != []
    requires (built, next, stop) == Step(cut, words, i, rows, font, maxW, maxLines, render)
    ensures stop ==> GreedyRows(cut, words, i, rows, font, maxW, maxLines, render) == (Join(built, "\n"), false)
    ensures !stop ==> GreedyRows(cut, words, i, rows, font, maxW, maxLines, render)
                      == GreedyRows(cut, words, next, built, font, maxW, maxLines, render)
  {
  }

  // ---- tryWrap ----

  /** How many of the words from i on go on the next row: findMaxFit on words[i..]. */
  method WordsFit(words: seq<String>, i: nat, font: String, maxW: int, render: Renderer) returns (best: nat)
    requires i < |words|
    ensures best == WordCount(Searched, words, i, font, maxW, render)
    ensures best <= |words| - i
    ensures best >= 1 ==> FitsWords(words[i..], best, " ", font, maxW, render)
    ensures RenderMonotone(render, font) ==> best == WordCount(Largest, words, i, font, maxW, render)
  {
    best := FindMaxFit(words[i..], " ", font, maxW, render);
    if RenderMonotone(render, font) {
      WordCountsAgree(words, i, font, maxW, render);
    }
  }

  /** The row for best whole words from i on: their rendering, which fits and so is not cut. */
  method WordRow(words: seq<String>, i: nat, best: nat, font: String, maxW: int, render: Renderer)
      returns (row: String)
    requires 1 <= best <= |words| - i
    requires forall k :: 0 <= k < |words| ==> words[k] != []
    requires FitsWords(words[i..], best, " ", font, maxW, render)
    ensures 0 <= maxW
    ensures row == Rendered(Join(words[i..i + best], " "), font, render)
    ensures row == Row(Join(words[i..i + best], " "), font, maxW, render)
    ensures Width(row) <= maxW
  {
    var chunk := RenderFig(Join(words[i..i + best], " "), font, render);
    assert words[i..][..best] == words[i..i + best];
    row := FitWidth(chunk, maxW);
  }

  /** One row of the rune-splitting loop: the count findMaxRuneFit gives (raised to 1 if it
      were 0) and the rendering of that many runes cut to maxW columns. */
  method RuneRow(runes: String, ci: nat, font: String, maxW: int, render: Renderer) returns (n: nat, row: String)
    requires ci < |runes| && 0 <= maxW
    ensures 1 <= n <= |runes| - ci
    ensures RowOf(row, RuneRun(runes[ci..ci + n]), font, maxW, render)
    ensures n == RuneCut(Searched, runes, ci, font, maxW, render)
    ensures RenderMonotone(render, font) ==> n == RuneCut(Largest, runes, ci, font, maxW, render)
  {
    var k: int := FindMaxRuneFit(runes[ci..], font, maxW, render);
    if k == 0 {
      k := 1;
    }
    n := k;
    var chunk := RenderFig(runes[ci..ci + n], font, render);
    row := FitWidth(chunk, maxW);
    if RenderMonotone(render, font) {
      RuneCutsAgree(runes, ci, font, maxW, render);
    }
  }

  /** The bookkeeping of one rune row: the row made from runes ci..ci2 extends the rows and
      the spelled prefix of the word. */
  lemma TrackRunes(built: seq<String>, pieces: seq<Piece>, before: String, runes: String, ci: nat, ci2: nat,
                   row: String, font: String, maxW: int, render: Renderer)
    requires ci < ci2 <= |runes|
    requires RowsFrom(built, pieces, font, maxW, render)
    requires Spelled(pieces) == before + runes[..ci]
    requires RowOf(row, RuneRun(runes[ci..ci2]), font, maxW, render)
    ensures RowsFrom(built + [row], pieces + [RuneRun(runes[ci..ci2])], font, maxW, render)
    ensures Spelled(pieces + [RuneRun(runes[ci..ci2])]) == before + runes[..ci2]
  {
    RowsFromSnoc(built, pieces, row, RuneRun(runes[ci..ci2]), font, maxW, render);
    SpellMore(pieces, before, runes, ci, ci2);
  }

  /** One round of the rune-splitting loop: the next rune row appended, ci moved past its
      runes; it is one round of ChunkRows as searched. */
  method PlaceRunes(runes: String, ci: nat, font: String, maxW: int, maxLines: int, render: Renderer,
                    built: seq<String>)
      returns (row: String, built2: seq<String>, ci2: nat)
    requires 0 <= maxW && ci < |runes| && |built| < maxLines
    ensures ci < ci2 <= |runes| && built2 == built + [row]
    ensures RowOf(row, RuneRun(runes[ci..ci2]), font, maxW, render)
    ensures ChunkRows(Searched, runes, ci, built, font, maxW, maxLines, render)
            == ChunkRows(Searched, runes, ci2, built2, font, maxW, maxLines, render)
  {
    var n;
    n, row := RuneRow(runes, ci, font, maxW, render);
    built2, ci2 := built + [row], ci + n;
    assert PieceText(RuneRun(runes[ci..ci2])) == runes[ci..ci2];
    ChunkStep(Searched, runes, ci, built, ci2, built2, row, font, maxW, maxLines, render);
  }

  /** The rune-splitting loop of tryWrap: cuts runes into rows of as many runes as fit
      (at least one each) until the runes are used up or the row budget is spent. */
  method ChunkWord(runes: String, font: String, maxW: int, maxLines: int, render: Renderer,
                   built0: seq<String>, ghost pieces0: seq<Piece>)
      returns (built: seq<String>, ci: nat, ghost pieces: seq<Piece>)
    requires 0 <= maxW
    requires |built0| <= RowBudget(maxLines)
    requires RowsFrom(built0, pieces0, font, maxW, render)
    ensures built0 <= built
    ensures ci <= |runes|
    ensures |built| <= RowBudget(maxLines)
    ensures ci < |runes| ==> |built| == RowBudget(maxLines)
    ensures RowsFrom(built, pieces, font, maxW, render)
    ensures Spelled(pieces) == Spelled(pieces0) + runes[..ci]
    ensures (built, ci) == ChunkRows(Searched, runes, 0, built0, font, maxW, maxLines, render)
  {
    built, ci, pieces := built0, 0, pieces0;
    ghost var searched := ChunkRows(Searched, runes, 0, built0, font, maxW, maxLines, render);
    while ci < |runes| && |built| < maxLines
      invariant 0 <= ci <= |runes|
      invariant built0 <= built
      invariant |built| <= RowBudget(maxLines)
      invariant RowsFrom(built, pieces, font, maxW, render)
      invariant Spelled(pieces) == Spelled(pieces0) + runes[..ci]
      invariant ChunkRows(Searched, runes, ci, built, font, maxW, maxLines, render) == searched
      decreases |runes| - ci
    {
      ghost var ci0, built1 := ci, built;
      var row;
      row, built, ci := PlaceRunes(runes, ci, font, maxW, maxLines, render, built);
      TrackRunes(built1, pieces, Spelled(pieces0), runes, ci0, ci, row, font, maxW, render);
      pieces := pieces + [RuneRun(runes[ci0..ci])];
    }
  }

  /** The branch of tryWrap for a word too wide to go on a row alone: gives up (stop) when
      its first rune does not fit, and otherwise cuts it into rune rows (ChunkWord), stopping
      when the row budget runs out before the word does. */
  method BreakWord(words: seq<String>, i: nat, font: String, maxW: int, maxLines: int, render: Renderer,
                   built0: seq<String>, ghost pieces0: seq<Piece>)
      returns (built: seq<String>, next: nat, stop: bool, ghost pieces: seq<Piece>)
    requires i < |words| && |built0| < maxLines
    requires forall k :: 0 <= k < |words| ==> words[k] != []
    requires RowsFrom(built0, pieces0, font, maxW, render)
    requires Spelled(pieces0) == Concat(words[..i])
    requires WordCount(Searched, words, i, font, maxW, render) == 0
    ensures built0 <= built
    ensures !FitsRunes(words[i], 1, font, maxW, render) ==> stop && built == built0
    ensures |built| <= RowBudget(maxLines)
    ensures RowsFrom(built, pieces, font, maxW, render)
    ensures !stop ==> i < next <= |words| && Spelled(pieces) == Concat(words[..next])
    ensures stop ==> Spelled(pieces) <= Concat(words) && Spelled(pieces) != Concat(words)
    ensures (built, next, stop) == Step(Searched, words, i, built0, font, maxW, maxLines, render)
  {
    var runes := words[i];
    next := i + 1;
    var oneFits := CheckFits(runes[..1], font, maxW, render);
    if !oneFits {
      UnfinishedIsProperPrefix(words, i, 0);
      StepBreaks(Searched, words, i, built0, built0, false, font, maxW, maxLines, render);
      return built0, next, true, pieces0;
    }
    var ci;
    built, ci, pieces := ChunkWord(runes, font, maxW, maxLines, render, built0, pieces0);
    UnfinishedIsProperPrefix(words, i, ci);
    stop := ci < |runes|;
    StepBreaks(Searched, words, i, built0, built, !stop, font, maxW, maxLines, render);
  }

  /** The branch of tryWrap for best >= 1: one row holding words i .. i + best - 1. */
  method PlaceWords(words: seq<String>, i: nat, best: nat, font: String, maxW: int, maxLines: int,
                    render: Renderer, built0: seq<String>, ghost pieces0: seq<Piece>)
      returns (built: seq<String>, next: nat, stop: bool, ghost pieces: seq<Piece>)
    requires 1 <= best <= |words| - i && |built0| < maxLines
    requires forall k :: 0 <= k < |words| ==> words[k] != []
    requires FitsWords(words[i..], best, " ", font, maxW, render)
    requires RowsFrom(built0, pieces0, font, maxW, render)
    requires Spelled(pieces0) == Concat(words[..i])
    ensures 0 <= maxW && built == built0 + [Row(Join(words[i..i + best], " "), font, maxW, render)]
    ensures next == i + best && !stop
    ensures |built| <= RowBudget(maxLines)
    ensures RowsFrom(built, pieces, font, maxW, render)
    ensures !stop ==> i < next <= |words| && Spelled(pieces) == Concat(words[..next])
  {
    var row := WordRow(words, i, best, font, maxW, render);
    ghost var p := WordRun(words[i..i + best]);
    RowsFromSnoc(built0, pieces0, row, p, font, maxW, render);
    built, next, stop, pieces := built0 + [row], i + best, false, pieces0 + [p];
    SpellWords(pieces0, pieces, words, i, next);
  }

  /** One round of tryWrap's loop from word i: the next row of whole words, or, for a word
      too wide alone, its rune rows. stop says packing failed, and then the text is not
      spelled in full. The round is one Step as searched. */
  method NextRows(words: seq<String>, i: nat, font: String, maxW: int, maxLines: int, render: Renderer,
                  built0: seq<String>, ghost pieces0: seq<Piece>)
      returns (built: seq<String>, next: nat, stop: bool, ghost pieces: seq<Piece>)
    requires i < |words| && |built0| < maxLines
    requires forall k :: 0 <= k < |words| ==> words[k] != []
    requires RowsFrom(built0, pieces0, font, maxW, render)
    requires Spelled(pieces0) == Concat(words[..i])
    ensures built0 <= built
    ensures |built| <= RowBudget(maxLines)
    ensures RowsFrom(built, pieces, font, maxW, render)
    ensures !stop ==> i < next <= |words| && Spelled(pieces) == Concat(words[..next])
    ensures stop ==> Spelled(pieces) <= Concat(words) && Spelled(pieces) != Concat(words)
    ensures (built, next, stop) == Step(Searched, words, i, built0, font, maxW, maxLines, render)
  {
    var best := WordsFit(words, i, font, maxW, render);
    if best == 0 {
      // a single word too wide: split it by runes
      built, next, stop, pieces := BreakWord(words, i, font, maxW, maxLines, render, built0, pieces0);
    } else {
      built, next, stop, pieces := PlaceWords(words, i, best, font, maxW, maxLines, render, built0, pieces0);
      StepPlaces(Searched, words, i, best, built0, built, next, stop, font, maxW, maxLines, render);
    }
  }

  /** The packing loop of tryWrap: NextRows from the first word while words and row budget
      remain, stopping early when a word cannot be placed. ok says every word was used,
      which is exactly when the rows spell all the words. */
  method PackWords(words: seq<String>, font: String, maxW: int, maxLines: int, render: Renderer)
      returns (result: String, ok: bool, ghost rows: seq<String>, ghost pieces: seq<Piece>)
    requires forall k :: 0 <= k < |words| ==> words[k] != []
    ensures result == Join(rows, "\n")
    ensures |rows| <= RowBudget(maxLines)
    ensures RowsFrom(rows, pieces, font, maxW, render)
    ensures 0 <= maxW ==> Width(result) <= maxW
    ensures Spelled(pieces) <= Concat(words)
    ensures ok <==> Spelled(pieces) == Concat(words)
    ensures (result, ok) == GreedyRows(Searched, words, 0, [], font, maxW, maxLines, render)
  {
    var built: seq<String> := [];
    var i := 0;
    pieces := [];
    while i < |words| && |built| < maxLines
      invariant 0 <= i <= |words|
      invariant |built| <= RowBudget(maxLines)
      invariant RowsFrom(built, pieces, font, maxW, render)
      invariant Spelled(pieces) == Concat(words[..i])
      invariant GreedyRows(Searched, words, i, built, font, maxW, maxLines, render)
                == GreedyRows(Searched, words, 0, [], font, maxW, maxLines, render)
      decreases |words| - i
    {
      var next, stop;
      ghost var before := built;
      built, next, stop, pieces := NextRows(words, i, font, maxW, maxLines, render, built, pieces);
      GreedyStep(Searched, words, i, before, built, next, stop, font, maxW, maxLines, render);
      i := next;
      if stop {
        result, ok, rows := Join(built, "\n"), false, built;
        RowsFromWidth(built, pieces, font, maxW, render);
        return;
      }
    }

    result, ok, rows := Join(built, "\n"), i >= |words|, built;
    if i < |words| {
      UnfinishedIsProperPrefix(words, i, 0);
    } else {
      assert words[..i] == words;
    }
    RowsFromWidth(built, pieces, font, maxW, render);
  }

  /** Packs text into at most maxLines rows, each fitting maxW columns.
      The ghost outputs are the rows built and what each row was rendered from. */
  method TryWrap(text: String, font: String, maxW: int, maxLines: int, render: Renderer)
      returns (result: String, ok: bool, ghost rows: seq<String>, ghost pieces: seq<Piece>)
    // fast path: the whole text on one row
    ensures FitsText(text, font, maxW, render) ==> result == Rendered(text, font, render) && ok
    // packing path: the rows joined by line breaks, within the row budget
    ensures !FitsText(text, font, maxW, render) ==> result == Join(rows, "\n")
    ensures |rows| <= RowBudget(maxLines)
    ensures RowsFrom(rows, pieces, font, maxW, render)
    ensures 0 <= maxW ==> Width(result) <= maxW
    // text without words always succeeds, with nothing to show when it does not fit
    ensures Fields(text) == [] ==> ok
    ensures !FitsText(text, font, maxW, render) && Fields(text) == [] ==> result == []
    // on the packing path the rows spell a prefix of the non-space runes, all of them exactly when ok
    ensures !FitsText(text, font, maxW, render) ==> Spelled(pieces) <= NonSpace(text)
    ensures !FitsText(text, font, maxW, render) ==> (ok <==> Spelled(pieces) == NonSpace(text))
    // the packing the binary searches give, for any renderer
    ensures (result, ok) == WrapSpec(Searched, text, font, maxW, maxLines, render)
    // with a monotone renderer, that is the greedy reference packing
    ensures RenderMonotone(render, font) ==> (result, ok) == WrapSpec(Largest, text, font, maxW, maxLines, render)
  {
    if RenderMonotone(render, font) {
      WrapSpecAgree(text, font, maxW, maxLines, render);
    }
    rows, pieces := [], [];
    var full := RenderFig(text, font, render);
    var fullW := MaxLineWidth(full);
    if fullW <= maxW {
      FieldsEmpty(text);
      return full, true, rows, pieces;
    }

    var words := Fields(text);
    FieldsConcat(text);
    if |words| == 0 {
      return [], true, rows, pieces;
    }
    result, ok, rows, pieces := PackWords(words, font, maxW, maxLines, render);
  }
}
