# large-tty figlet fit engine, in Dafny

large-tty shows a line of text in a terminal in large FIGlet letters. This project models
the part that makes the lettering fit the window: internal/tui/wrap.go.

- **wrapFiglet** tries fonts in order. The preferred font comes first, then the tiers
  "big", "standard", "small", "mini" and "term" without the preferred font (a tier is not
  tried twice). The first font tryWrap succeeds with wins; "term" is the last resort.
- **tryWrap** fits the text into `maxW` columns:
  - the whole text goes on one row when its rendering fits, whatever `maxLines` is (the
    row limit is only tested in the packing loop, so this holds even for `maxLines <= 0`);
  - otherwise words are packed greedily into at most `maxLines` figlet rows, with a binary
    search (**findMaxFit**) for the longest run of words that fits;
  - a word too wide on its own is cut into runs of runes, with a second binary search
    (**findMaxRuneFit**).
- **renderFig**, **sanitizeASCII**, **maxLineWidth**, **fitWidth** and **clamp** are the
  small helpers these are built from.

## Modules

| file | module | contents |
|---|---|---|
| strings.dfy | Strings | Go's `strings.Split`, `Join`, `TrimRight` and `Fields`, with their round trips |
| helpers.dfy | Helpers | sanitizeASCII, maxLineWidth, fitWidth, clamp |
| render.dfy | Render | renderFig; the glyph renderer as a parameter; the monotonicity hypothesis |
| search.dfy | Search | findMaxFit, findMaxRuneFit, the count their binary search settles on, and the declarative "largest fitting prefix" |
| pack.dfy | Pack | tryWrap, plus `WrapSpec`, its specification, for rows sized by the searches or by the largest fitting prefix |
| ladder.dfy | Ladder | fontTiers, maxFigLines, wrapFiglet, plus `LadderSpec`, the specification of the ladder |

## Design

**The renderer is a parameter.** The go-figure glyph renderer is not modelled. It is a
parameter `render: (String, String) -> String` taking ASCII text and a font name to block
art, and every operation takes it. Whatever `render` is, the model proves:

- tryWrap computes `WrapSpec(Searched, …)` and wrapFiglet computes
  `LadderSpec(Searched, …)`: the packing, and the first font whose packing succeeds, with
  each row sized by the count the source's own binary searches return;
- every row is cut to `maxW` columns;
- on the packing path, tryWrap's rows spell, in order, a prefix of the text's non-space
  runes, and all of them exactly when it reports success;
- on the packing path, at most `maxLines` rows are built;
- a word whose first rune alone is too wide ends packing at once, with no row added;
- rows once built are kept;
- findMaxFit returns 0 exactly when the first item alone does not fit, and otherwise a
  count that fits; unless that count is every item, one more item does not fit;
- findMaxRuneFit returns every rune when they all fit, and otherwise 1 or a count that
  fits. It returns 1 even when not one rune fits. Only when its count fits and is short
  of every rune is the next count known not to fit;
- wrapFiglet returns "term" whenever its tryWrap failed; on the packing path its rows keep
  the row limit and spell all the text exactly when that tryWrap succeeded; text that fits
  the preferred font as one row, or has no words, is shown in the preferred font.

**Monotonicity is a hypothesis.** The binary searches only find the *largest* fitting
prefix when a longer text never renders narrower. That is the predicate
`Render.RenderMonotone(render, font)`. Nothing assumes it; each result that needs it takes
it as an explicit hypothesis. The specifications take how rows are sized as a parameter
`Pack.Cut`: `Searched`, the counts the searches return, or `Largest`, the largest fitting
run taken directly (no search). Under monotonicity:

- `Pack.WrapSpecAgree` proves `WrapSpec(Searched, …) == WrapSpec(Largest, …)`, so `TryWrap`
  is greedy packing by the largest fitting prefix;
- `Ladder.LadderAgree` proves the same for `LadderSpec`, so `WrapFiglet` is the first font
  whose reference packing succeeds.

**The width checks keep slicing safe.** Go's `line[:maxW]` would panic for a negative
`maxW`, so `FitWidth` requires `0 <= maxW`. tryWrap reaches fitWidth only after a
rendering was found to fit. The model proves `0 <= maxW` at both calls (the `RowOf`
predicate carries it).

**The row loop is split into methods.** tryWrap's loop body is modelled as a few methods
with the source's branches:

- `NextRows` is one round;
- `PlaceWords` is the `best >= 1` branch;
- `BreakWord` is the `best == 0` branch;
- `ChunkWord` / `PlaceRunes` / `RuneRow` are the inner loop over runes.

`TryWrap` keeps the fast path and the empty-text case; `PackWords` is its outer loop. The
binary-search loops of findMaxFit and findMaxRuneFit are the methods `BisectWords` and
`BisectRunes`, and one probe of each is `ProbeWords` / `ProbeRunes`. Both loops compute
the function `Search.Bisect` over a ghost table of the probes' answers. The test
`maxLineWidth(renderFig(text, font)) <= maxW`, which the source writes out at each use, is
the method `CheckFits`.

## Model

| member | source | states |
|---|---|---|
| Helpers.SanitizeASCII | internal/tui/wrap.go:172-181 | the result is `Ascii(s)`: the runes of s that are at most 127, in order; no longer than s and all ASCII |
| Helpers.AsciiFixesExactlyAscii | internal/tui/wrap.go:172-181 | sanitizing leaves a string unchanged if and only if it is already ASCII |
| Helpers.AsciiIdempotent | internal/tui/wrap.go:172-181 | sanitizing twice is sanitizing once |
| Helpers.AsciiAppend | internal/tui/wrap.go:172-181 | sanitizing a concatenation sanitizes each part |
| Helpers.AsciiPrefix | internal/tui/wrap.go:172-181 | sanitizing a prefix gives a prefix of the sanitized text |
| Helpers.AsciiMembers | internal/tui/wrap.go:175-177 | a rune survives exactly when it occurs in s and is at most 127 |
| Helpers.MaxLineWidth | internal/tui/wrap.go:184-192 | the running maximum over the lines of `strings.Split(s, "\n")` is `Width(s)` |
| Helpers.WidthIsMaxLen | internal/tui/wrap.go:184-192 | `Width(s)` is the largest length among the pieces Split gives |
| Helpers.WidthIsLongestLine | internal/tui/wrap.go:184-192 | the width bounds every line and is the length of one of them; 0 for the empty string |
| Helpers.MaxLenIsMax | internal/tui/wrap.go:185-191 | the maximum bounds every line and is reached by one, 0 for no lines |
| Helpers.WidthOfJoin | internal/tui/wrap.go:108 | rows joined by line breaks are no wider than the widest row |
| Helpers.TrimKeepsWidth | internal/tui/wrap.go:168 | trimming trailing line breaks keeps the width |
| Helpers.FitWidth | internal/tui/wrap.go:12-20 | the result is every line cut to maxW runes and re-joined; it is at most maxW wide; a block that already fits comes back unchanged |
| Helpers.TruncatedIsLineWise | internal/tui/wrap.go:13-19 | the recursive truncation is Join of the cut lines of Split |
| Helpers.TruncatedLines | internal/tui/wrap.go:12-20 | truncation keeps the line count and cuts each line to its maxW-prefix; the width is bounded by maxW; a fitting block is unchanged |
| Helpers.TruncatedSplit | internal/tui/wrap.go:13-19 | splitting the truncated block gives the cut lines of the block |
| Helpers.TruncatedWidth | internal/tui/wrap.go:12-20 | the truncated block is at most maxW wide |
| Helpers.TruncatedFits | internal/tui/wrap.go:15 | a block already within maxW is left unchanged |
| Helpers.Clamp | internal/tui/wrap.go:22-24 | `min(max(v, lo), hi)`: at most hi; at least lo when lo <= hi; v itself when in range; hi wins when the bounds cross |
| Render.RenderFig | internal/tui/wrap.go:165-169 | the sanitized text rendered, with trailing line breaks trimmed: a prefix of the raw rendering that does not end in a line break |
| Render.CheckFits | internal/tui/wrap.go:118 | the test `maxLineWidth(renderFig(text, font)) <= maxW`, as the source writes it at each use, is `FitsText` |
| Render.RenderedWidth | internal/tui/wrap.go:168 | the trim never changes the width of the rendering |
| Render.FitsPrefix | internal/tui/wrap.go:111-113 | under monotonicity, every prefix of a fitting text fits |
| Render.WordPrefixesFit | internal/tui/wrap.go:111-113 | under monotonicity, fitting is downward closed in the number of joined words |
| Render.RunePrefixesFit | internal/tui/wrap.go:141-142 | under monotonicity, fitting is downward closed in the number of runes |
| Search.FindMaxFit | internal/tui/wrap.go:114-139 | the count is `SearchWords`; 0 exactly when the first item alone does not fit; otherwise a count whose join fits; whatever the renderer, unless it is every item, one more item does not fit; when fitting is downward closed, no larger count fits and the result is `LargestFitWords` |
| Search.BisectWords | internal/tui/wrap.go:127-138 | the loop ends on `Bisect` of the probes' answers from the window 1..len(items) with best 1, the count `SearchWords` uses (its properties: `BisectWordsSettles`) |
| Search.ProbeWords | internal/tui/wrap.go:129-131 | a probe answers whether the first mid items, joined, fit: entry mid of the probe table |
| Search.FindMaxRuneFit | internal/tui/wrap.go:143-163 | the count is `SearchRunes`; between 1 and the rune count; all of them when they all fit; 1 or a count that fits; a fitting count short of all runes has a non-fitting successor; on no runes, 0 when the empty rendering fits and 1 otherwise; when fitting is downward closed, the largest fitting count (1 when none fits) |
| Search.BisectRunes | internal/tui/wrap.go:151-162 | the loop ends on `Bisect` of the probes' answers from the window 1..len(runes) with best 1, the count `SearchRunes` uses (its properties: `BisectRunesSettles`) |
| Search.ProbeRunes | internal/tui/wrap.go:153-155 | a probe answers whether the first mid runes fit: entry mid of the probe table |
| Search.Bisect | internal/tui/wrap.go:127-138 | the search both loops run (also wrap.go:151-162): it settles on the starting best or on a probed count that fit |
| Search.BisectProbe | internal/tui/wrap.go:129-136 | one probe: mid lies in the window, and the window moves past mid on the side its answer says |
| Search.WindowShrinks | internal/tui/wrap.go:129-136 | a probe keeps the search's state: best is 1 or fits, and the count above the window does not fit |
| Search.BisectSettles | internal/tui/wrap.go:127-138 | from any state the searches reach, the search settles on 1 or a fitting count, and on a fitting count short of the whole input only when the next count does not fit; no monotonicity needed |
| Search.WordTableAt | internal/tui/wrap.go:130-131 | entry j of the word probe table is the fit test for the first j items |
| Search.RuneTableAt | internal/tui/wrap.go:154-155 | entry j of the rune probe table is the fit test for the first j runes |
| Search.WordTableIs | internal/tui/wrap.go:130-131 | every entry of the full word probe table is its fit test |
| Search.RuneTableIs | internal/tui/wrap.go:154-155 | every entry of the full rune probe table is its fit test |
| Search.SearchWords | internal/tui/wrap.go:114-139 | what findMaxFit returns for any renderer: at most the item count; 0 exactly when the first item alone does not fit; a nonzero count fits |
| Search.SearchRunes | internal/tui/wrap.go:143-163 | what findMaxRuneFit returns for any renderer: between 1 and the rune count on nonempty input; 1 or a count that fits |
| Search.BisectWordsSettles | internal/tui/wrap.go:127-138 | once one item fits, the word search settles on a fitting count whose successor, if any, does not fit |
| Search.BisectRunesSettles | internal/tui/wrap.go:151-162 | the rune search settles on 1 or a fitting count, and a fitting count short of all runes has a non-fitting successor |
| Search.SearchWordsSettles | internal/tui/wrap.go:114-139 | unless findMaxFit's count is every item, one more item does not fit, whatever the renderer |
| Search.SearchRunesSettles | internal/tui/wrap.go:143-163 | findMaxRuneFit's count is every rune when they all fit; on no runes it is 0 or 1 as the empty rendering fits or not; a fitting count short of all runes has a non-fitting successor |
| Search.SearchWordsIsLargest | internal/tui/wrap.go:111-139 | under downward closure, findMaxFit's count is `LargestFitWords` |
| Search.SearchRunesIsLargest | internal/tui/wrap.go:141-163 | under downward closure, findMaxRuneFit's count is `LargestFitRunes`, or 1 when not one rune fits |
| Search.WordsFailAbove | internal/tui/wrap.go:111-113 | when fitting is downward closed, one count that does not fit rules out all larger ones |
| Search.RunesFailAbove | internal/tui/wrap.go:141-142 | the same for rune counts |
| Search.LargestFitWordsIsLargest | internal/tui/wrap.go:111-113 | no count above `LargestFitWords` fits |
| Search.LargestFitWordsUnique | internal/tui/wrap.go:111-113 | a fitting count with no fitting count above it is `LargestFitWords` |
| Search.LargestFitRunesIsLargest | internal/tui/wrap.go:141-142 | no count above `LargestFitRunes` fits |
| Search.LargestFitRunesUnique | internal/tui/wrap.go:141-142 | a fitting count with no fitting count above it is `LargestFitRunes` |
| Pack.TryWrap | internal/tui/wrap.go:60-109 | the result is `WrapSpec(Searched, …)` for any renderer: fast path, the whole rendering as one row, and success, when it fits, whatever maxLines is; text without words succeeds with nothing to show; otherwise the rows joined by line breaks, at most maxLines rows, each cut to maxW; on the packing path the rows spell a prefix of the non-space runes, all of them exactly when ok; under monotonicity the result is `WrapSpec(Largest, …)` |
| Pack.PackWords | internal/tui/wrap.go:71-108 | the packing loop: the rows joined by line breaks, at most maxLines of them, each from its piece and within maxW; they spell a prefix of the words, all of them exactly when ok; the result is `GreedyRows(Searched, …)` |
| Pack.NextRows | internal/tui/wrap.go:75-105 | one round of the loop: the rows built before are kept, every row keeps its piece, the spelled prefix grows to the next word on success and stays a proper prefix on failure; it is one `Step(Searched, …)` |
| Pack.PlaceWords | internal/tui/wrap.go:103-105 | one row of `best` whole words, rendered and cut to maxW, and i moves past them |
| Pack.BreakWord | internal/tui/wrap.go:78-100 | a word too wide alone: for any renderer, gives up with no row added when its first rune does not fit; else cuts it into rune rows, failing when the row budget runs out first; earlier rows are kept; it is one `Step(Searched, …)` |
| Pack.ChunkWord | internal/tui/wrap.go:86-95 | the rune loop keeps the earlier rows, stops at the end of the word or the row budget, the rows spell the runes consumed, and it is `ChunkRows(Searched, …)` |
| Pack.PlaceRunes | internal/tui/wrap.go:88-94 | one rune row of at least one rune, cut to maxW; one step of `ChunkRows(Searched, …)` |
| Pack.RuneRow | internal/tui/wrap.go:88-93 | `findMaxRuneFit` raised to 1, with the row cut to maxW: the count is `RuneCut(Searched, …)`, and under monotonicity `RuneCut(Largest, …)` |
| Pack.WordsFit | internal/tui/wrap.go:75 | `findMaxFit(words[i:])`: `WordCount(Searched, …)`, a fitting count, and under monotonicity `WordCount(Largest, …)`, the largest fitting run |
| Pack.WordCount | internal/tui/wrap.go:75 | the count for the next row under either cut: at most the words left, and a nonzero count fits |
| Pack.RuneCut | internal/tui/wrap.go:88-91 | the runes for the next rune row under either cut: at least one and at most the runes left |
| Pack.WordCountsAgree | internal/tui/wrap.go:75 | under monotonicity, the searched word count is the largest fitting run of words |
| Pack.RuneCutsAgree | internal/tui/wrap.go:88-91 | under monotonicity, the searched rune count is the largest fitting run of runes, raised to 1 |
| Pack.ChunkRowsAgree | internal/tui/wrap.go:86-95 | under monotonicity, a word's rune rows are the same under both cuts |
| Pack.StepsAgree | internal/tui/wrap.go:75-105 | under monotonicity, one round of packing is the same under both cuts |
| Pack.GreedyRowsAgree | internal/tui/wrap.go:74-108 | under monotonicity, packing from any word on is the same under both cuts |
| Pack.WrapSpecAgree | internal/tui/wrap.go:60-109 | under monotonicity, what tryWrap computes is greedy packing by the largest fitting prefix |
| Pack.WordRow | internal/tui/wrap.go:103-104 | a row of fitting words is their rendering, untouched by the cut |
| Pack.RowsFromWidth | internal/tui/wrap.go:93 | every row built fits, so the joined rows fit; with a negative width no row is built |
| Pack.UnfinishedIsProperPrefix | internal/tui/wrap.go:96-98 | stopping inside a word leaves a proper prefix of the non-space runes |
| Pack.GreedyStep | internal/tui/wrap.go:74-106 | under either cut, one round of packing is one `Step`, ending it on failure |
| Pack.StepPlaces | internal/tui/wrap.go:103-105 | under either cut, the step for a fitting run of words is one row of them |
| Pack.StepBreaks | internal/tui/wrap.go:78-100 | under either cut, the step for a word too wide alone is its rune rows |
| Pack.ChunkStep | internal/tui/wrap.go:87-95 | under either cut, one step of a word's rune rows |
| Pack.TrackRunes | internal/tui/wrap.go:92-94 | a rune row extends the rows and the spelled prefix of the word |
| Ladder.FontTiersShape | internal/tui/wrap.go:28-32 | five distinct tiers ending in "term", the fallback font, so "term" is in every font order; maxFigLines allows three rows |
| Ladder.FontOrderShape | internal/tui/wrap.go:38-44 | the preferred font comes first; every tier is tried and nothing else; no font twice; a font outside the tiers is simply put in front of them |
| Ladder.WrapFiglet | internal/tui/wrap.go:37-56 | the result is `LadderSpec(Searched, …)` for any renderer: the first font of the order whose tryWrap succeeds, else the "term" packing; the font used is one of the fonts tried, and "term" whenever its tryWrap failed; the result is at most maxW wide whenever maxW >= 0; it is the one-row rendering in that font when that fits, and otherwise the font's rows joined, at most maxLines of them, spelling all of its non-space runes exactly when that tryWrap succeeded; text that fits the preferred font, or has no words, comes back in the preferred font; under monotonicity it is `LadderSpec(Largest, …)` |
| Ladder.LadderAgree | internal/tui/wrap.go:37-56 | with monotone renderers for every font tried and for "term", the ladder over the searched packing is the ladder over the reference packing |
| Ladder.LadderPicksFirst | internal/tui/wrap.go:46-51 | under either cut, the ladder stops at the first font whose packing succeeds |
| Ladder.LadderFallsBack | internal/tui/wrap.go:53-55 | under either cut, when every font fails, the result is the "term" packing, with "term" |
| Ladder.LadderChoice | internal/tui/wrap.go:46-55 | under either cut, the font picked is in the list or is "term"; unless it is the fallback, that font succeeded with exactly the rows returned |
| Ladder.WithoutMembers | internal/tui/wrap.go:40-44 | the filtered tiers hold exactly the tiers other than the preferred font |
| Ladder.WithoutDistinct | internal/tui/wrap.go:40-44 | filtering adds no repeats |
| Ladder.WithoutLength | internal/tui/wrap.go:40-44 | filtering drops one entry when the preferred font is a tier, none otherwise |
| Strings.Split | internal/tui/wrap.go:13 | `strings.Split` with a one-rune separator: the pieces between separators, one more than the separators (see `SplitShape`, `JoinSplit`) |
| Strings.Join | internal/tui/wrap.go:19 | `strings.Join`: the parts with the separator between consecutive ones, as used at wrap.go:83, 103 and 108 (see `SplitJoin`) |
| Strings.TrimRight | internal/tui/wrap.go:168 | `strings.TrimRight` with a one-rune cut set (see `TrimRightShape`) |
| Strings.Fields | internal/tui/wrap.go:66 | `strings.Fields`: nonempty fields without white space (see `FieldsConcat`, `FieldsJoin`) |
| Strings.SplitJoin | internal/tui/wrap.go:13-19 | `Split` undoes `Join` when no part holds the separator |
| Strings.JoinSplit | internal/tui/wrap.go:13-19 | `Join` undoes `Split` |
| Strings.SplitAround | internal/tui/wrap.go:186 | splitting around one separator splits each side independently |
| Strings.SplitShape | internal/tui/wrap.go:13 | Split gives at least one piece, and no piece holds the separator |
| Strings.TrimRightShape | internal/tui/wrap.go:168 | TrimRight gives a prefix that does not end in the cut rune, having dropped only copies of it |
| Strings.FieldsConcat | internal/tui/wrap.go:66 | the fields hold exactly the non-space runes of the text, in order |
| Strings.FieldsJoin | internal/tui/wrap.go:66 | words without white space joined by single spaces come back as exactly those words: fields are maximal |
| Strings.WordAtWord | internal/tui/wrap.go:66 | a field extends to the next white space |
| Strings.FieldsEmpty | internal/tui/wrap.go:66-69 | there are no fields exactly when every rune is white space |

## Left out

- The go-figure renderer (`figure.NewFigure(...).String()`) is not part of this model. It is the `render` parameter. The model fixes no glyphs, so no statement depends on what any font looks like.
- Search.FindMaxFit, Search.FindMaxRuneFit: that the count is the largest fitting prefix is proved only under downward closure of fitting, which follows from `RenderMonotone`. Real FIGlet fonts are not known to satisfy it: kerning can make a longer text narrower. Without it the search may return a smaller count than the largest one that fits. What it returns for any renderer is stated exactly, as `SearchWords` / `SearchRunes`.
- Pack.TryWrap, Ladder.WrapFiglet: equality with the reference packing `WrapSpec(Largest, …)` and ladder `LadderSpec(Largest, …)` holds only under `RenderMonotone`, for the same reason. For any renderer they equal `WrapSpec(Searched, …)` and `LadderSpec(Searched, …)`.
- Ladder.WrapFiglet: the final `tryWrap(text, "term", …)` repeats an attempt the loop already made, because "term" is a tier (`FontTiersShape`). The model performs it as the source does.
- Bytes and runes: Go's `len(line)` and `line[:maxW]` count bytes, while the model counts runes (`seq<char>`). They agree on the ASCII that renderFig emits; UTF-8 encoding is not modelled.
- Search.FindMaxFit requires at least one item, as the source does by reading `items[0]`; tryWrap always passes a nonempty list.
- Helpers.FitWidth requires `maxW >= 0`: for a negative width, Go's `line[:maxW]` panics.
- Search.FindMaxRuneFit on no runes answers 0 or 1, as the source does; tryWrap never calls it so.
- Helpers.MaxLineWidth uses `strings.Split` where the source iterates `strings.SplitSeq`, which yields the same lines.
- Ladder.MaxFigLines is only a constant here; the caller that passes it (internal/tui/model.go) is not part of this model, nor are ui.go, keymap.go, styles.go, fonts.go and the server and command entry points.
- Strings.Split, Join, Fields and TrimRight are modelled as much as wrap.go uses them: a one-rune separator, a one-rune trim set, Unicode white space by code point.
