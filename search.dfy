/** findMaxFit and findMaxRuneFit: binary searches for the longest prefix that fits. The
    count they return is defined for any renderer (SearchWords, SearchRunes, over the shared
    search Bisect); when fitting is downward closed it is the declarative "largest fitting
    prefix" (LargestFitWords, LargestFitRunes). */
module Search {
  import opened Strings
  import opened Helpers
  import opened Render

  /** The largest j in 1..k such that the first j items fit, or 0 if there is none. */
  function LargestFitWords(items: seq<String>, k: nat, sep: String, font: String, maxW: int, render: Renderer): (r: nat)
    requires k <= |items|
    ensures r <= k
    ensures r >= 1 ==> FitsWords(items, r, sep, font, maxW, render)
    decreases k
  {
    if k == 0 then 0
    else if FitsWords(items, k, sep, font, maxW, render) then k
    else LargestFitWords(items, k - 1, sep, font, maxW, render)
  }

  /** The largest j in 1..k such that the first j runes fit, or 0 if there is none. */
  function LargestFitRunes(runes: String, k: nat, font: String, maxW: int, render: Renderer): (r: nat)
    requires k <= |runes|
    ensures r <= k
    ensures r >= 1 ==> FitsRunes(runes, r, font, maxW, render)
    decreases k
  {
    if k == 0 then 0
    else if FitsRunes(runes, k, font, maxW, render) then k
    else LargestFitRunes(runes, k - 1, font, maxW, render)
  }

  /** No count above LargestFitWords (up to k) fits. */
  lemma {:induction false} LargestFitWordsIsLargest(items: seq<String>, k: nat, sep: String, font: String, maxW: int,
                                                    render: Renderer)
    requires k <= |items|
    ensures forall j: nat :: LargestFitWords(items, k, sep, font, maxW, render) < j <= k ==>
              !FitsWords(items, j, sep, font, maxW, render)
    decreases k
  {
    if k > 0 && !FitsWords(items, k, sep, font, maxW, render) {
      LargestFitWordsIsLargest(items, k - 1, sep, font, maxW, render);
    }
  }

  /** No count above LargestFitRunes (up to k) fits. */
  lemma {:induction false} LargestFitRunesIsLargest(runes: String, k: nat, font: String, maxW: int, render: Renderer)
    requires k <= |runes|
    ensures forall j: nat :: LargestFitRunes(runes, k, font, maxW, render) < j <= k ==>
              !FitsRunes(runes, j, font, maxW, render)
    decreases k
  {
    if k > 0 && !FitsRunes(runes, k, font, maxW, render) {
      LargestFitRunesIsLargest(runes, k - 1, font, maxW, render);
    }
  }

  /** A count that fits, with none above it up to k fitting, is LargestFitWords. */
  lemma {:induction false} LargestFitWordsUnique(items: seq<String>, k: nat, b: nat, sep: String, font: String,
                                                 maxW: int, render: Renderer)
    requires b <= k <= |items|
    requires b >= 1 ==> FitsWords(items, b, sep, font, maxW, render)
    requires forall j: nat :: b < j <= k ==> !FitsWords(items, j, sep, font, maxW, render)
    ensures LargestFitWords(items, k, sep, font, maxW, render) == b
    decreases k
  {
    if b < k {
      LargestFitWordsUnique(items, k - 1, b, sep, font, maxW, render);
    }
  }

  /** A count that fits, with none above it up to k fitting, is LargestFitRunes. */
  lemma {:induction false} LargestFitRunesUnique(runes: String, k: nat, b: nat, font: String, maxW: int,
                                                 render: Renderer)
    requires b <= k <= |runes|
    requires b >= 1 ==> FitsRunes(runes, b, font, maxW, render)
    requires forall j: nat :: b < j <= k ==> !FitsRunes(runes, j, font, maxW, render)
    ensures LargestFitRunes(runes, k, font, maxW, render) == b
    decreases k
  {
    if b < k {
      LargestFitRunesUnique(runes, k - 1, b, font, maxW, render);
    }
  }

  /** The binary search findMaxFit and findMaxRuneFit share, over fits[j], the answer to
      "do the first j fit": from the window lo..hi with best the last count that fit, each
      probe mid halves the window, and the count it settles on is the last probe that fit,
      or the starting best if none did. */
  function Bisect(fits: seq<bool>, lo: nat, hi: nat, best: nat): (r: nat)
    requires 1 <= lo && hi < |fits|
    ensures r == best || (lo <= r <= hi && fits[r])
    decreases hi + 1 - lo
  {
    if lo > hi then best
    else
      var mid := (lo + hi) / 2;
      if fits[mid] then Bisect(fits, mid + 1, hi, mid)
      else Bisect(fits, lo, mid - 1, best)
  }

  /** One probe of the search: the window shrinks past mid, on the side the answer at mid says. */
  lemma BisectProbe(fits: seq<bool>, lo: nat, hi: nat, mid: nat, best: nat)
    requires 1 <= lo <= hi < |fits| && mid == (lo + hi) / 2
    ensures lo <= mid <= hi
    ensures fits[mid] ==> Bisect(fits, lo, hi, best) == Bisect(fits, mid + 1, hi, mid)
    ensures !fits[mid] ==> Bisect(fits, lo, hi, best) == Bisect(fits, lo, mid - 1, best)
  {
  }

  /** The state of the search as the source starts and keeps it: best is the count below the
      window (1 at the start), it fits unless the window still starts at 1, and the count
      just above the window does not fit. */
  predicate Window(fits: seq<bool>, lo: nat, hi: nat, best: nat)
  {
    1 <= lo <= hi + 1 <= |fits| &&
    best == (if lo == 1 then 1 else lo - 1) &&
    (lo > 1 ==> fits[best]) &&
    (hi + 1 < |fits| ==> !fits[hi + 1])
  }

  /** Where a search may settle: on 1 or a count that fits, and on a fitting count only if
      its successor does not fit or it is the whole input. */
  predicate Settled(fits: seq<bool>, r: nat)
  {
    1 <= r &&
    (r > 1 ==> r < |fits| && fits[r]) &&
    (r + 1 < |fits| && fits[r] ==> !fits[r + 1])
  }

  /** A probe keeps the search's state, whatever the answer at mid. */
  lemma WindowShrinks(fits: seq<bool>, lo: nat, hi: nat, best: nat)
    requires Window(fits, lo, hi, best) && lo <= hi
    ensures fits[(lo + hi) / 2] ==> Window(fits, (lo + hi) / 2 + 1, hi, (lo + hi) / 2)
    ensures !fits[(lo + hi) / 2] ==> Window(fits, lo, (lo + hi) / 2 - 1, best)
  {
  }

  /** The search settles where Settled allows, from any state the source can reach; nothing
      here needs fitting to be downward closed. */
  lemma {:induction false} BisectSettles(fits: seq<bool>, lo: nat, hi: nat, best: nat)
    requires Window(fits, lo, hi, best)
    ensures Settled(fits, Bisect(fits, lo, hi, best))
    decreases hi + 1 - lo
  {
    if lo <= hi {
      var mid := (lo + hi) / 2;
      BisectProbe(fits, lo, hi, mid, best);
      WindowShrinks(fits, lo, hi, best);
      if fits[mid] {
        BisectSettles(fits, mid + 1, hi, mid);
      } else {
        BisectSettles(fits, lo, mid - 1, best);
      }
    }
  }

  /** The answers findMaxFit's probes get: entry j (j <= k) says whether the first j items fit. */
  function WordTable(items: seq<String>, k: nat, sep: String, font: String, maxW: int, render: Renderer): (t: seq<bool>)
    requires k <= |items|
    ensures |t| == k + 1
    decreases k
  {
    if k == 0 then [FitsWords(items, 0, sep, font, maxW, render)]
    else WordTable(items, k - 1, sep, font, maxW, render) + [FitsWords(items, k, sep, font, maxW, render)]
  }

  /** The answers findMaxRuneFit's probes get: entry j (j <= k) says whether the first j runes fit. */
  function RuneTable(runes: String, k: nat, font: String, maxW: int, render: Renderer): (t: seq<bool>)
    requires k <= |runes|
    ensures |t| == k + 1
    decreases k
  {
    if k == 0 then [FitsRunes(runes, 0, font, maxW, render)]
    else RuneTable(runes, k - 1, font, maxW, render) + [FitsRunes(runes, k, font, maxW, render)]
  }

  /** Entry j of a word table is the fit test for j items. */
  lemma {:induction false} WordTableAt(items: seq<String>, k: nat, j: nat, sep: String, font: String, maxW: int,
                                       render: Renderer)
    requires j <= k <= |items|
    ensures WordTable(items, k, sep, font, maxW, render)[j] == FitsWords(items, j, sep, font, maxW, render)
    decreases k
  {
    if j < k {
      WordTableAt(items, k - 1, j, sep, font, maxW, render);
    }
  }

  /** Entry j of a rune table is the fit test for j runes. */
  lemma {:induction false} RuneTableAt(runes: String, k: nat, j: nat, font: String, maxW: int, render: Renderer)
    requires j <= k <= |runes|
    ensures RuneTable(runes, k, font, maxW, render)[j] == FitsRunes(runes, j, font, maxW, render)
    decreases k
  {
    if j < k {
      RuneTableAt(runes, k - 1, j, font, maxW, render);
    }
  }

  /** Every entry of the full word table is its fit test. */
  lemma WordTableIs(items: seq<String>, sep: String, font: String, maxW: int, render: Renderer)
    ensures forall j :: 0 <= j <= |items| ==>
              WordTable(items, |items|, sep, font, maxW, render)[j] == FitsWords(items, j, sep, font, maxW, render)
  {
    forall j | 0 <= j <= |items|
      ensures WordTable(items, |items|, sep, font, maxW, render)[j] == FitsWords(items, j, sep, font, maxW, render)
    {
      WordTableAt(items, |items|, j, sep, font, maxW, render);
    }
  }

  /** Every entry of the full rune table is its fit test. */
  lemma RuneTableIs(runes: String, font: String, maxW: int, render: Renderer)
    ensures forall j :: 0 <= j <= |runes| ==>
              RuneTable(runes, |runes|, font, maxW, render)[j] == FitsRunes(runes, j, font, maxW, render)
  {
    forall j | 0 <= j <= |runes|
      ensures RuneTable(runes, |runes|, font, maxW, render)[j] == FitsRunes(runes, j, font, maxW, render)
    {
      RuneTableAt(runes, |runes|, j, font, maxW, render);
    }
  }

  /** The count findMaxFit returns, whatever the renderer: 0 when the first item alone does
      not fit, every item when they all fit together, and otherwise the count its binary
      search settles on. A nonzero count fits. */
  function SearchWords(items: seq<String>, sep: String, font: String, maxW: int, render: Renderer): (r: nat)
    requires |items| >= 1
    ensures r <= |items|
    ensures r == 0 <==> !FitsText(items[0], font, maxW, render)
    ensures r >= 1 ==> FitsWords(items, r, sep, font, maxW, render)
  {
    assert Join(items[..1], sep) == items[0];
    assert items[..|items|] == items;
    if !FitsText(items[0], font, maxW, render) then 0
    else if FitsText(Join(items, sep), font, maxW, render) then |items|
    else
      var r := Bisect(WordTable(items, |items|, sep, font, maxW, render), 1, |items|, 1);
      WordTableAt(items, |items|, r, sep, font, maxW, render);
      r
  }

  /** The count findMaxRuneFit returns, whatever the renderer: every rune when they all fit,
      and otherwise the count its binary search settles on, which starts at 1. */
  function SearchRunes(runes: String, font: String, maxW: int, render: Renderer): (r: nat)
    ensures |runes| >= 1 ==> 1 <= r <= |runes|
    ensures r == 1 || (r <= |runes| && FitsRunes(runes, r, font, maxW, render))
  {
    assert runes[..|runes|] == runes;
    if FitsText(runes, font, maxW, render) then |runes|
    else
      var r := Bisect(RuneTable(runes, |runes|, font, maxW, render), 1, |runes|, 1);
      if r <= |runes| then RuneTableAt(runes, |runes|, r, font, maxW, render); r else r
  }

  /** The word search, started once one item fits, settles on a fitting count, and on one
      whose successor does not fit unless it is every item. */
  lemma BisectWordsSettles(items: seq<String>, sep: String, font: String, maxW: int, render: Renderer)
    requires |items| >= 1 && FitsWords(items, 1, sep, font, maxW, render)
    ensures var r := Bisect(WordTable(items, |items|, sep, font, maxW, render), 1, |items|, 1);
            1 <= r <= |items| && FitsWords(items, r, sep, font, maxW, render) &&
            (r < |items| ==> !FitsWords(items, r + 1, sep, font, maxW, render))
  {
    var t := WordTable(items, |items|, sep, font, maxW, render);
    BisectSettles(t, 1, |items|, 1);
    var r := Bisect(t, 1, |items|, 1);
    WordTableAt(items, |items|, r, sep, font, maxW, render);
    if r < |items| {
      WordTableAt(items, |items|, r + 1, sep, font, maxW, render);
    }
  }

  /** The rune search settles on 1 or a fitting count, and on a fitting count whose
      successor does not fit unless it is every rune. */
  lemma BisectRunesSettles(runes: String, font: String, maxW: int, render: Renderer)
    ensures var r := Bisect(RuneTable(runes, |runes|, font, maxW, render), 1, |runes|, 1);
            1 <= r && (|runes| >= 1 ==> r <= |runes|) &&
            (r == 1 || (r <= |runes| && FitsRunes(runes, r, font, maxW, render))) &&
            (r < |runes| && FitsRunes(runes, r, font, maxW, render) ==> !FitsRunes(runes, r + 1, font, maxW, render))
  {
    var t := RuneTable(runes, |runes|, font, maxW, render);
    BisectSettles(t, 1, |runes|, 1);
    var r := Bisect(t, 1, |runes|, 1);
    if r <= |runes| {
      RuneTableAt(runes, |runes|, r, font, maxW, render);
    }
    if r < |runes| {
      RuneTableAt(runes, |runes|, r + 1, font, maxW, render);
    }
  }

  /** What findMaxFit returns, beyond a fitting count: unless it is every item, one more
      item does not fit, whatever the renderer. */
  lemma SearchWordsSettles(items: seq<String>, sep: String, font: String, maxW: int, render: Renderer)
    requires |items| >= 1
    ensures var r := SearchWords(items, sep, font, maxW, render);
            r < |items| ==> !FitsWords(items, r + 1, sep, font, maxW, render)
  {
    assert Join(items[..1], sep) == items[0];
    if FitsText(items[0], font, maxW, render) && !FitsText(Join(items, sep), font, maxW, render) {
      BisectWordsSettles(items, sep, font, maxW, render);
    }
  }

  /** What findMaxRuneFit returns, beyond 1 or a fitting count: every rune when they all
      fit; on empty input 0 when the empty rendering fits and 1 otherwise; and when it fits
      and is not every rune, one more rune does not fit. */
  lemma SearchRunesSettles(runes: String, font: String, maxW: int, render: Renderer)
    ensures var r := SearchRunes(runes, font, maxW, render);
            (FitsRunes(runes, |runes|, font, maxW, render) ==> r == |runes|) &&
            (|runes| == 0 ==> r == if FitsRunes(runes, 0, font, maxW, render) then 0 else 1) &&
            (r < |runes| && FitsRunes(runes, r, font, maxW, render) ==> !FitsRunes(runes, r + 1, font, maxW, render))
  {
    assert runes[..|runes|] == runes;
    if !FitsText(runes, font, maxW, render) {
      BisectRunesSettles(runes, font, maxW, render);
    }
  }

  /** Under downward closure, findMaxFit's search is the largest fitting prefix. */
  lemma SearchWordsIsLargest(items: seq<String>, sep: String, font: String, maxW: int, render: Renderer)
    requires |items| >= 1
    requires WordFitsClosed(items, sep, font, maxW, render)
    ensures SearchWords(items, sep, font, maxW, render) == LargestFitWords(items, |items|, sep, font, maxW, render)
  {
    var r := SearchWords(items, sep, font, maxW, render);
    SearchWordsSettles(items, sep, font, maxW, render);
    WordsFailAbove(items, r, sep, font, maxW, render);
    LargestFitWordsUnique(items, |items|, r, sep, font, maxW, render);
  }

  /** Under downward closure, findMaxRuneFit's search is the largest fitting prefix, or 1
      when not even one rune fits. */
  lemma SearchRunesIsLargest(runes: String, font: String, maxW: int, render: Renderer)
    requires |runes| >= 1
    requires RuneFitsClosed(runes, font, maxW, render)
    ensures SearchRunes(runes, font, maxW, render) ==
              if LargestFitRunes(runes, |runes|, font, maxW, render) == 0 then 1
              else LargestFitRunes(runes, |runes|, font, maxW, render)
  {
    var n := |runes|;
    var r := SearchRunes(runes, font, maxW, render);
    SearchRunesSettles(runes, font, maxW, render);
    if FitsRunes(runes, r, font, maxW, render) {
      RunesFailAbove(runes, r, font, maxW, render);
      LargestFitRunesUnique(runes, n, r, font, maxW, render);
    } else {
      RunesFailAbove(runes, 0, font, maxW, render);
      LargestFitRunesUnique(runes, n, 0, font, maxW, render);
    }
  }

  /** When fitting is downward closed, a count that does not fit rules out every larger one. */
  lemma WordsFailAbove(items: seq<String>, b: nat, sep: String, font: String, maxW: int, render: Renderer)
    requires WordFitsClosed(items, sep, font, maxW, render)
    requires b < |items| ==> !FitsWords(items, b + 1, sep, font, maxW, render)
    ensures forall j: nat :: b < j <= |items| ==> !FitsWords(items, j, sep, font, maxW, render)
  {
  }

  /** When fitting is downward closed, a rune count that does not fit rules out every larger one. */
  lemma RunesFailAbove(runes: String, b: nat, font: String, maxW: int, render: Renderer)
    requires RuneFitsClosed(runes, font, maxW, render)
    requires b < |runes| ==> !FitsRunes(runes, b + 1, font, maxW, render)
    ensures forall j: nat :: b < j <= |runes| ==> !FitsRunes(runes, j, font, maxW, render)
  {
  }

  /** One probe of findMaxFit's search: do the first mid items fit? */
  method ProbeWords(items: seq<String>, mid: nat, sep: String, font: String, maxW: int, render: Renderer,
                    ghost table: seq<bool>)
      returns (fits: bool)
    requires mid <= |items| && |table| == |items| + 1
    requires forall j {:trigger FitsWords(items, j, sep, font, maxW, render)} ::
               0 <= j <= |items| ==> table[j] == FitsWords(items, j, sep, font, maxW, render)
    ensures fits == FitsWords(items, mid, sep, font, maxW, render)
    ensures fits == table[mid]
  {
    fits := CheckFits(Join(items[..mid], sep), font, maxW, render);
  }

  /** One probe of findMaxRuneFit's search: do the first mid runes fit? */
  method ProbeRunes(runes: String, mid: nat, font: String, maxW: int, render: Renderer, ghost table: seq<bool>)
      returns (fits: bool)
    requires mid <= |runes| && |table| == |runes| + 1
    requires forall j {:trigger FitsRunes(runes, j, font, maxW, render)} ::
               0 <= j <= |runes| ==> table[j] == FitsRunes(runes, j, font, maxW, render)
    ensures fits == FitsRunes(runes, mid, font, maxW, render)
    ensures fits == table[mid]
  {
    fits := CheckFits(runes[..mid], font, maxW, render);
  }

  /** The binary search of findMaxFit, once one item fits: lo and hi close in on the count
      where fitting stops, best holding the last count that fit. The ghost table holds the
      answers its probes get. */
  method BisectWords(items: seq<String>, sep: String, font: String, maxW: int, render: Renderer,
                     ghost table: seq<bool>)
      returns (best: nat)
    requires |table| == |items| + 1
    requires forall j {:trigger FitsWords(items, j, sep, font, maxW, render)} ::
               0 <= j <= |items| ==> table[j] == FitsWords(items, j, sep, font, maxW, render)
    ensures best == Bisect(table, 1, |items|, 1)
  {
    var n := |items|;
    var lo, hi := 1, n;
    best := 1;
    while lo <= hi
      invariant 1 <= lo <= hi + 1 <= n + 1
      invariant Bisect(table, lo, hi, best) == Bisect(table, 1, n, 1)
      decreases hi - lo
    {
      var mid := (lo + hi) / 2;
      var fits := ProbeWords(items, mid, sep, font, maxW, render, table);
      BisectProbe(table, lo, hi, mid, best);
      if fits {
        best := mid;
        lo := mid + 1;
      } else {
        hi := mid - 1;
      }
    }
  }

  /** The binary search of findMaxRuneFit: best starts at 1 and holds the last count that
      fit, if any did. The ghost table holds the answers its probes get. */
  method BisectRunes(runes: String, font: String, maxW: int, render: Renderer, ghost table: seq<bool>)
      returns (best: nat)
    requires |table| == |runes| + 1
    requires forall j {:trigger FitsRunes(runes, j, font, maxW, render)} ::
               0 <= j <= |runes| ==> table[j] == FitsRunes(runes, j, font, maxW, render)
    ensures best == Bisect(table, 1, |runes|, 1)
  {
    var n := |runes|;
    var lo, hi := 1, n;
    best := 1;
    while lo <= hi
      invariant 1 <= lo <= hi + 1 <= n + 1
      invariant Bisect(table, lo, hi, best) == Bisect(table, 1, n, 1)
      decreases hi - lo
    {
      var mid := (lo + hi) / 2;
      var fits := ProbeRunes(runes, mid, font, maxW, render, table);
      BisectProbe(table, lo, hi, mid, best);
      if fits {
        best := mid;
        lo := mid + 1;
      } else {
        hi := mid - 1;
      }
    }
  }

  /** The number of leading items (1..|items|) that fit when joined by sep, or 0 when the
      first item alone does not fit. Whatever the renderer, a nonzero answer fits; when width
      is monotone the answer is the largest count that fits. The source indexes items[0]. */
  method FindMaxFit(items: seq<String>, sep: String, font: String, maxW: int, render: Renderer)
      returns (best: nat)
    requires |items| >= 1
    ensures best == SearchWords(items, sep, font, maxW, render)
    ensures best <= |items|
    ensures best == 0 <==> !FitsText(items[0], font, maxW, render)
    ensures best >= 1 ==> FitsWords(items, best, sep, font, maxW, render)
    ensures best < |items| ==> !FitsWords(items, best + 1, sep, font, maxW, render)
    ensures WordFitsClosed(items, sep, font, maxW, render) ==>
              forall j: nat :: best < j <= |items| ==> !FitsWords(items, j, sep, font, maxW, render)
    ensures WordFitsClosed(items, sep, font, maxW, render) ==> best == LargestFitWords(items, |items|, sep, font, maxW, render)
  {
    var n := |items|;
    var firstFits := CheckFits(items[0], font, maxW, render);
    if !firstFits {
      best := 0;
    } else {
      var wholeFits := CheckFits(Join(items, sep), font, maxW, render);
      if wholeFits {
        best := n;
      } else {
        WordTableIs(items, sep, font, maxW, render);
        best := BisectWords(items, sep, font, maxW, render, WordTable(items, n, sep, font, maxW, render));
      }
    }
    SearchWordsSettles(items, sep, font, maxW, render);
    if WordFitsClosed(items, sep, font, maxW, render) {
      SearchWordsIsLargest(items, sep, font, maxW, render);
      WordsFailAbove(items, best, sep, font, maxW, render);
    }
  }

  /** The number of leading runes (1..|runes|) that fit. It is 1 even when a single rune
      does not fit; it is |runes| when all of them fit; when width is monotone it is the
      largest count that fits, if that is at least 1. On empty input the source answers
      0 when the empty rendering fits and 1 otherwise. */
  method FindMaxRuneFit(runes: String, font: String, maxW: int, render: Renderer) returns (best: nat)
    ensures best == SearchRunes(runes, font, maxW, render)
    ensures |runes| >= 1 ==> 1 <= best <= |runes|
    ensures |runes| == 0 ==> best == if FitsRunes(runes, 0, font, maxW, render) then 0 else 1
    ensures FitsRunes(runes, |runes|, font, maxW, render) ==> best == |runes|
    ensures best == 1 || (best <= |runes| && FitsRunes(runes, best, font, maxW, render))
    ensures best < |runes| && FitsRunes(runes, best, font, maxW, render) ==>
              !FitsRunes(runes, best + 1, font, maxW, render)
    ensures RuneFitsClosed(runes, font, maxW, render) ==>
              forall j: nat :: best < j <= |runes| ==> !FitsRunes(runes, j, font, maxW, render)
    ensures RuneFitsClosed(runes, font, maxW, render) && |runes| >= 1 ==>
              best == if LargestFitRunes(runes, |runes|, font, maxW, render) == 0 then 1
                      else LargestFitRunes(runes, |runes|, font, maxW, render)
  {
    var n := |runes|;
    var wholeFits := CheckFits(runes, font, maxW, render);
    if wholeFits {
      best := n;
    } else {
      RuneTableIs(runes, font, maxW, render);
      best := BisectRunes(runes, font, maxW, render, RuneTable(runes, n, font, maxW, render));
    }
    SearchRunesSettles(runes, font, maxW, render);
    if RuneFitsClosed(runes, font, maxW, render) && n >= 1 {
      SearchRunesIsLargest(runes, font, maxW, render);
      if FitsRunes(runes, best, font, maxW, render) {
        RunesFailAbove(runes, best, font, maxW, render);
      } else {
        RunesFailAbove(runes, 0, font, maxW, render);
      }
    }
  }
}
