/** The small helpers of the fit engine: sanitizeASCII, maxLineWidth, fitWidth and clamp. */
module Helpers {
  import opened Strings

  // ---- sanitizeASCII ----

  /** The runes of s that are at most 127, in their original order. */
  function Ascii(s: String): String
    decreases |s|
  {
    if |s| == 0 then []
    else
      var last := s[|s| - 1];
      Ascii(s[..|s| - 1]) + (if last as int <= 127 then [last] else [])
  }

  predicate IsAscii(s: String)
  {
    forall k :: 0 <= k < |s| ==> s[k] as int <= 127
  }

  /** Sanitizing keeps at most the runes it was given, and only ASCII ones. */
  lemma {:induction false} AsciiShape(s: String)
    ensures |Ascii(s)| <= |s|
    ensures IsAscii(Ascii(s))
    decreases |s|
  {
    if s != [] {
      AsciiShape(s[..|s| - 1]);
    }
  }

  /** Drops every rune above 127, keeping the others in order. */
  method SanitizeASCII(s: String) returns (r: String)
    ensures r == Ascii(s)
    ensures |r| <= |s|
    ensures IsAscii(r)
  {
    r := [];
    for i := 0 to |s|
      invariant r == Ascii(s[..i])
    {
      assert s[..i + 1][..i] == s[..i];
      if s[i] as int <= 127 {
        r := r + [s[i]];
      }
    }
    assert s[..|s|] == s;
    AsciiShape(s);
  }

  lemma {:induction false} AsciiAppend(a: String, b: String)
    ensures Ascii(a + b) == Ascii(a) + Ascii(b)
    decreases |b|
  {
    if b == [] {
      assert a + b == a;
    } else {
      var c := a + b;
      assert c[..|c| - 1] == a + b[..|b| - 1];
      assert c[|c| - 1] == b[|b| - 1];
      AsciiAppend(a, b[..|b| - 1]);
    }
  }

  /** Sanitizing leaves ASCII text as it is, and only ASCII text. */
  lemma {:induction false} AsciiFixesExactlyAscii(s: String)
    ensures Ascii(s) == s <==> IsAscii(s)
    decreases |s|
  {
    if s != [] {
      var init := s[..|s| - 1];
      AsciiFixesExactlyAscii(init);
      AsciiShape(init);
      AsciiShape(s);
      assert s == init + [s[|s| - 1]];
      if IsAscii(s) {
        assert IsAscii(init) by {
          forall k | 0 <= k < |init| ensures init[k] as int <= 127 {
            assert init[k] == s[k];
          }
        }
      }
    }
  }

  /** sanitize(sanitize(s)) == sanitize(s). */
  lemma AsciiIdempotent(s: String)
    ensures Ascii(Ascii(s)) == Ascii(s)
  {
    AsciiShape(s);
    AsciiFixesExactlyAscii(Ascii(s));
  }

  /** Sanitizing a prefix gives a prefix of the sanitized text. */
  lemma AsciiPrefix(s: String, t: String)
    requires s <= t
    ensures Ascii(s) <= Ascii(t)
  {
    assert t == s + t[|s|..];
    AsciiAppend(s, t[|s|..]);
  }

  /** A rune survives sanitizing exactly when it occurs in s and is at most 127. */
  lemma {:induction false} AsciiMembers(s: String, c: char)
    ensures c in Ascii(s) <==> c in s && c as int <= 127
    decreases |s|
  {
    if s != [] {
      AsciiMembers(s[..|s| - 1], c);
      assert s == s[..|s| - 1] + [s[|s| - 1]];
    }
  }

  // ---- maxLineWidth ----

  /** The length of the longest line among lines, 0 when there are none. */
  function MaxLen(lines: seq<String>): nat
    decreases |lines|
  {
    if |lines| == 0 then 0
    else
      var rest := MaxLen(lines[..|lines| - 1]);
      var last := |lines[|lines| - 1]|;
      if last > rest then last else rest
  }

  /** MaxLen bounds every line and is reached by one of them (it is 0 for no lines). */
  lemma {:induction false} MaxLenIsMax(lines: seq<String>)
    ensures forall k :: 0 <= k < |lines| ==> |lines[k]| <= MaxLen(lines)
    ensures lines != [] ==> exists k :: 0 <= k < |lines| && |lines[k]| == MaxLen(lines)
    ensures lines == [] ==> MaxLen(lines) == 0
    decreases |lines|
  {
    if lines != [] {
      var init := lines[..|lines| - 1];
      MaxLenIsMax(init);
      assert forall k :: 0 <= k < |init| ==> lines[k] == init[k];
      if init != [] && |lines[|lines| - 1]| <= MaxLen(init) {
        var j :| 0 <= j < |init| && |init[j]| == MaxLen(init);
        assert |lines[j]| == MaxLen(lines);
      }
    }
  }

  /** The first line of s: its runes up to the first line break. */
  function LineAt(s: String): (line: String)
    ensures |line| <= |s|
    decreases |s|
  {
    if |s| == 0 || s[0] == '\n' then [] else [s[0]] + LineAt(s[1..])
  }

  /** The width of a rendered block: the length of its longest line
      (equal to MaxLen(Split(s, '\n')), lemma WidthIsMaxLen). */
  function Width(s: String): nat
    decreases |s|
  {
    var line := LineAt(s);
    if |line| == |s| then |s|
    else
      var rest := Width(s[|line| + 1..]);
      if |line| > rest then |line| else rest
  }

  /** Splitting on line breaks gives the first line, then the pieces after its break. */
  lemma {:induction false} SplitFirstLine(s: String)
    ensures Split(s, '\n') == [LineAt(s)] + (if |LineAt(s)| == |s| then [] else Split(s[|LineAt(s)| + 1..], '\n'))
    decreases |s|
  {
    if s != [] && s[0] != '\n' {
      SplitFirstLine(s[1..]);
      if |LineAt(s[1..])| < |s[1..]| {
        assert s[1..][|LineAt(s[1..])| + 1..] == s[|LineAt(s)| + 1..];
      }
    }
  }

  lemma MaxLenSingle(a: String)
    ensures MaxLen([a]) == |a|
  {
    assert [a][..0] == [];
  }

  /** The recursive width is the longest of the lines Split gives. */
  lemma {:induction false} WidthIsMaxLen(s: String)
    ensures Width(s) == MaxLen(Split(s, '\n'))
    decreases |s|
  {
    var line := LineAt(s);
    SplitFirstLine(s);
    MaxLenSingle(line);
    if |line| < |s| {
      WidthIsMaxLen(s[|line| + 1..]);
      MaxLenAppend([line], Split(s[|line| + 1..], '\n'));
    } else {
      assert [line] + [] == [line];
    }
  }

  /** Splits s on line breaks and keeps a running maximum of the line lengths
      (see WidthIsLongestLine for what the width is). */
  method MaxLineWidth(s: String) returns (w: nat)
    ensures w == Width(s)
  {
    var lines := Split(s, '\n');
    w := 0;
    for i := 0 to |lines|
      invariant w == MaxLen(lines[..i])
    {
      assert lines[..i + 1][..i] == lines[..i];
      if |lines[i]| > w {
        w := |lines[i]|;
      }
    }
    assert lines[..|lines|] == lines;
    WidthIsMaxLen(s);
  }

  /** The width bounds every line of s and is the length of one of them; it is 0 for "". */
  lemma WidthIsLongestLine(s: String)
    ensures forall line :: line in Split(s, '\n') ==> |line| <= Width(s)
    ensures exists line :: line in Split(s, '\n') && |line| == Width(s)
    ensures s == [] ==> Width(s) == 0
  {
    var lines := Split(s, '\n');
    WidthIsMaxLen(s);
    MaxLenIsMax(lines);
    SplitShape(s, '\n');
    var k :| 0 <= k < |lines| && |lines[k]| == Width(s);
    assert lines[k] in lines;
  }

  lemma {:induction false} MaxLenAppend(a: seq<String>, b: seq<String>)
    ensures MaxLen(a + b) == if MaxLen(a) < MaxLen(b) then MaxLen(b) else MaxLen(a)
    decreases |b|
  {
    if b == [] {
      assert a + b == a;
    } else {
      var init := b[..|b| - 1];
      MaxLenAppend(a, init);
      assert (a + b)[..|a + b| - 1] == a + init;
      assert (a + b)[|a + b| - 1] == b[|b| - 1];
    }
  }

  /** Rows joined by line breaks are as wide as their widest row. */
  lemma {:induction false} WidthOfJoin(rows: seq<String>, maxW: nat)
    requires forall k :: 0 <= k < |rows| ==> Width(rows[k]) <= maxW
    ensures Width(Join(rows, "\n")) <= maxW
    decreases |rows|
  {
    if |rows| > 1 {
      WidthOfJoin(rows[1..], maxW);
      WidthIsMaxLen(rows[0]);
      WidthIsMaxLen(Join(rows[1..], "\n"));
      WidthIsMaxLen(Join(rows, "\n"));
      SplitAround(rows[0], '\n', Join(rows[1..], "\n"));
      MaxLenAppend(Split(rows[0], '\n'), Split(Join(rows[1..], "\n"), '\n'));
    }
  }

  /** Trailing line breaks only add empty lines, so trimming them keeps the width. */
  lemma {:induction false} TrimKeepsWidth(s: String)
    ensures Width(TrimRight(s, '\n')) == Width(s)
    decreases |s|
  {
    if s != [] && s[|s| - 1] == '\n' {
      var init := s[..|s| - 1];
      TrimKeepsWidth(init);
      WidthIsMaxLen(init);
      WidthIsMaxLen(s);
      assert s == init + ['\n'] + [];
      SplitAround(init, '\n', []);
      MaxLenAppend(Split(init, '\n'), [[]]);
    }
  }

  // ---- fitWidth ----

  /** A line cut down to at most maxW runes. */
  function TruncLine(line: String, maxW: nat): String
  {
    if |line| > maxW then line[..maxW] else line
  }

  function TruncLines(lines: seq<String>, maxW: nat): (r: seq<String>)
  {
    seq(|lines|, k requires 0 <= k < |lines| => TruncLine(lines[k], maxW))
  }

  /** The block s with every line cut down to at most maxW runes
      (line by line it is Join(TruncLines(Split(s)), lemma TruncatedIsLineWise). */
  function Truncated(s: String, maxW: nat): String
    decreases |s|
  {
    var line := LineAt(s);
    if |line| == |s| then TruncLine(s, maxW)
    else TruncLine(line, maxW) + "\n" + Truncated(s[|line| + 1..], maxW)
  }

  lemma {:induction false} LineAtPrefix(s: String)
    ensures LineAt(s) <= s
    decreases |s|
  {
    if s != [] && s[0] != '\n' {
      LineAtPrefix(s[1..]);
    }
  }

  /** Cutting lines is done one line at a time. */
  lemma TruncLinesCons(line: String, lines: seq<String>, maxW: nat)
    ensures TruncLines([line] + lines, maxW) == [TruncLine(line, maxW)] + TruncLines(lines, maxW)
  {
    var all := [line] + lines;
    assert forall k :: 1 <= k < |all| ==> all[k] == lines[k - 1];
  }

  /** Truncating the block is truncating each of the lines Split gives and joining them again. */
  lemma {:induction false} TruncatedIsLineWise(s: String, maxW: nat)
    ensures Truncated(s, maxW) == Join(TruncLines(Split(s, '\n'), maxW), "\n")
    decreases |s|
  {
    var line := LineAt(s);
    SplitFirstLine(s);
    if |line| == |s| {
      LineAtPrefix(s);
      assert line == s;
      TruncLinesCons(s, [], maxW);
    } else {
      var tail := s[|line| + 1..];
      TruncatedIsLineWise(tail, maxW);
      SplitShape(tail, '\n');
      TruncLinesCons(line, Split(tail, '\n'), maxW);
      JoinCons(TruncLine(line, maxW), TruncLines(Split(tail, '\n'), maxW), "\n");
    }
  }

  /** Cut lines are at most maxW long and gain no line break. */
  lemma TruncLinesShape(lines: seq<String>, maxW: nat)
    requires forall k :: 0 <= k < |lines| ==> '\n' !in lines[k]
    ensures forall k :: 0 <= k < |lines| ==>
              '\n' !in TruncLines(lines, maxW)[k] && |TruncLines(lines, maxW)[k]| <= maxW
  {
    var cut := TruncLines(lines, maxW);
    forall k | 0 <= k < |cut| ensures '\n' !in cut[k] && |cut[k]| <= maxW {
      assert cut[k] <= lines[k];
    }
  }

  /** The lines of the truncated block are the cut lines of the block. */
  lemma TruncatedSplit(s: String, maxW: nat)
    ensures Split(Truncated(s, maxW), '\n') == TruncLines(Split(s, '\n'), maxW)
  {
    TruncatedIsLineWise(s, maxW);
    SplitShape(s, '\n');
    TruncLinesShape(Split(s, '\n'), maxW);
    SplitJoin(TruncLines(Split(s, '\n'), maxW), '\n');
  }

  /** The truncated block is at most maxW wide. */
  lemma TruncatedWidth(s: String, maxW: nat)
    ensures Width(Truncated(s, maxW)) <= maxW
  {
    var cut := TruncLines(Split(s, '\n'), maxW);
    TruncatedSplit(s, maxW);
    SplitShape(s, '\n');
    TruncLinesShape(Split(s, '\n'), maxW);
    WidthIsMaxLen(Truncated(s, maxW));
    MaxLenIsMax(cut);
  }

  /** A block that already fits is left unchanged. */
  lemma TruncatedFits(s: String, maxW: nat)
    requires Width(s) <= maxW
    ensures Truncated(s, maxW) == s
  {
    var lines := Split(s, '\n');
    WidthIsMaxLen(s);
    MaxLenIsMax(lines);
    assert TruncLines(lines, maxW) == lines;
    TruncatedIsLineWise(s, maxW);
    JoinSplit(s, '\n');
  }

  /** Truncation keeps the line count, cuts each line to its maxW-prefix when longer,
      bounds the width by maxW and leaves a block that already fits unchanged. */
  lemma TruncatedLines(s: String, maxW: nat)
    ensures Split(Truncated(s, maxW), '\n') == TruncLines(Split(s, '\n'), maxW)
    ensures Width(Truncated(s, maxW)) <= maxW
    ensures Width(s) <= maxW ==> Truncated(s, maxW) == s
  {
    TruncatedSplit(s, maxW);
    TruncatedWidth(s, maxW);
    if Width(s) <= maxW {
      TruncatedFits(s, maxW);
    }
  }

  /** Cuts every line of s to at most maxW runes (Go's line[:maxW] needs maxW >= 0);
      TruncatedLines says what that does line by line. */
  method FitWidth(s: String, maxW: int) returns (r: String)
    requires 0 <= maxW
    ensures Width(r) <= maxW
    ensures Width(s) <= maxW ==> r == s
    ensures r == Truncated(s, maxW)
  {
    var lines := Split(s, '\n');
    ghost var original := lines;
    for i := 0 to |lines|
      invariant |lines| == |original|
      invariant forall k :: 0 <= k < i ==> lines[k] == TruncLine(original[k], maxW)
      invariant forall k :: i <= k < |lines| ==> lines[k] == original[k]
    {
      if |lines[i]| > maxW {
        lines := lines[i := lines[i][..maxW]];
      }
    }
    assert lines == TruncLines(original, maxW);
    r := Join(lines, "\n");
    TruncatedIsLineWise(s, maxW);
    TruncatedLines(s, maxW);
  }

  // ---- clamp ----

  /** min(max(v, lo), hi): v bounded to [lo, hi]; hi wins when the bounds cross. */
  function Clamp(v: int, lo: int, hi: int): (r: int)
    ensures r <= hi
    ensures lo <= hi ==> lo <= r
    ensures lo <= v <= hi ==> r == v
    ensures v < lo ==> r == if lo <= hi then lo else hi
    ensures v > hi ==> r == hi
  {
    var up := if v < lo then lo else v;
    if up < hi then up else hi
  }
}
