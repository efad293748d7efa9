/** The parts of Go's `strings` and `unicode` packages that the fit engine relies on:
    Split, Join, TrimRight and Fields, on strings seen as sequences of runes. */
module Strings {

  type String = seq<char>

  /** strings.Split with a one-rune separator: the pieces between separators, in order.
      There is always at least one piece (the empty string splits into [""]). */
  function Split(s: String, sep: char): seq<String>
    decreases |s|
  {
    if |s| == 0 then [[]]
    else
      var rest := Split(s[1..], sep);
      if s[0] == sep then [[]] + rest
      else if |rest| == 0 then [[s[0]]]  // never taken: see SplitShape
      else [[s[0]] + rest[0]] + rest[1..]
  }

  /** strings.Join: the parts with sep between consecutive ones. */
  function Join(parts: seq<String>, sep: String): String
    decreases |parts|
  {
    if |parts| == 0 then []
    else if |parts| == 1 then parts[0]
    else parts[0] + sep + Join(parts[1..], sep)
  }

  /** strings.TrimRight with a one-rune cut set: drops every trailing c. */
  function TrimRight(s: String, c: char): String
    decreases |s|
  {
    if |s| > 0 && s[|s| - 1] == c then TrimRight(s[..|s| - 1], c) else s
  }

  /** TrimRight gives a prefix of s that does not end in c, having dropped only copies of c. */
  lemma {:induction false} TrimRightShape(s: String, c: char)
    ensures TrimRight(s, c) <= s
    ensures TrimRight(s, c) == [] || TrimRight(s, c)[|TrimRight(s, c)| - 1] != c
    ensures forall k :: |TrimRight(s, c)| <= k < |s| ==> s[k] == c
    decreases |s|
  {
    if s != [] && s[|s| - 1] == c {
      TrimRightShape(s[..|s| - 1], c);
    }
  }

  /** The words concatenated with nothing between them. */
  function Concat(words: seq<String>): String
    decreases |words|
  {
    if |words| == 0 then [] else words[0] + Concat(words[1..])
  }

  /** unicode.IsSpace: the Latin-1 spaces and the other runes with Unicode's White_Space property. */
  predicate IsSpace(c: char)
  {
    var n := c as int;
    n == 0x20 || (0x09 <= n <= 0x0D) || n == 0x85 || n == 0xA0
    || n == 0x1680 || (0x2000 <= n <= 0x200A) || n == 0x2028 || n == 0x2029
    || n == 0x202F || n == 0x205F || n == 0x3000
  }

  /** The runes of s that are not white space, in order. */
  function NonSpace(s: String): String
    decreases |s|
  {
    if |s| == 0 then [] else (if IsSpace(s[0]) then [] else [s[0]]) + NonSpace(s[1..])
  }

  /** The longest prefix of s that holds no white space. */
  function WordAt(s: String): (w: String)
    ensures w <= s
    ensures forall k :: 0 <= k < |w| ==> !IsSpace(w[k])
    ensures |w| == |s| || IsSpace(s[|w|])
    decreases |s|
  {
    if |s| == 0 || IsSpace(s[0]) then [] else [s[0]] + WordAt(s[1..])
  }

  /** strings.Fields: the maximal runs of non-space runes, in order. */
  function Fields(s: String): (words: seq<String>)
    ensures forall k :: 0 <= k < |words| ==> words[k] != []
    ensures forall k, m :: 0 <= k < |words| && 0 <= m < |words[k]| ==> !IsSpace(words[k][m])
    decreases |s|
  {
    if |s| == 0 then []
    else if IsSpace(s[0]) then Fields(s[1..])
    else
      var w := WordAt(s);
      var rest := Fields(s[|w|..]);
      assert forall k :: 1 <= k < |[w] + rest| ==> ([w] + rest)[k] == rest[k - 1];
      [w] + rest
  }

  // ---- Split and Join ----

  /** Split gives at least one piece, and no piece holds the separator. */
  lemma {:induction false} SplitShape(s: String, sep: char)
    ensures |Split(s, sep)| >= 1
    ensures forall k :: 0 <= k < |Split(s, sep)| ==> sep !in Split(s, sep)[k]
    decreases |s|
  {
    if s != [] {
      SplitShape(s[1..], sep);
      var rest := Split(s[1..], sep);
      assert forall k :: 1 <= k < |rest| ==> sep !in rest[k];
    }
  }

  /** The pieces of c followed by parts: a new empty piece when c is the separator,
      otherwise c joins the first piece. */
  function ConsPiece(c: char, parts: seq<String>, sep: char): seq<String>
    requires |parts| >= 1
  {
    if c == sep then [[]] + parts else [[c] + parts[0]] + parts[1..]
  }

  /** Split of a nonempty string: its first rune put in front of the pieces of the rest. */
  lemma SplitHead(s: String, sep: char)
    requires |s| >= 1
    ensures |Split(s[1..], sep)| >= 1
    ensures Split(s, sep) == ConsPiece(s[0], Split(s[1..], sep), sep)
  {
    SplitShape(s[1..], sep);
  }

  /** Putting a rune in front only touches the first piece, so it commutes with appending. */
  lemma ConsPieceAppend(c: char, left: seq<String>, right: seq<String>, sep: char)
    requires |left| >= 1
    ensures ConsPiece(c, left + right, sep) == ConsPiece(c, left, sep) + right
  {
    assert (left + right)[1..] == left[1..] + right;
  }

  /** Splitting around one separator splits each side independently. */
  lemma {:induction false} SplitAround(a: String, sep: char, b: String)
    ensures Split(a + [sep] + b, sep) == Split(a, sep) + Split(b, sep)
    decreases |a|
  {
    var s := a + [sep] + b;
    if |a| == 0 {
      assert s[1..] == b;
      SplitHead(s, sep);
    } else {
      assert s[1..] == a[1..] + [sep] + b;
      SplitAround(a[1..], sep, b);
      SplitHead(s, sep);
      SplitHead(a, sep);
      ConsPieceAppend(a[0], Split(a[1..], sep), Split(b, sep), sep);
    }
  }

  /** A string without the separator is a single piece. */
  lemma {:induction false} SplitNoSep(a: String, sep: char)
    requires sep !in a
    ensures Split(a, sep) == [a]
    decreases |a|
  {
    if a != [] {
      assert sep !in a[1..];
      SplitNoSep(a[1..], sep);
      assert [a[0]] + a[1..] == a;
    }
  }

  /** Split undoes Join when no part holds the separator. */
  lemma {:induction false} SplitJoin(parts: seq<String>, sep: char)
    requires |parts| >= 1
    requires forall k :: 0 <= k < |parts| ==> sep !in parts[k]
    ensures Split(Join(parts, [sep]), sep) == parts
    decreases |parts|
  {
    SplitNoSep(parts[0], sep);
    if |parts| > 1 {
      SplitJoin(parts[1..], sep);
      SplitAround(parts[0], sep, Join(parts[1..], [sep]));
      assert [parts[0]] + parts[1..] == parts;
    }
  }

  /** Join undoes Split. */
  lemma {:induction false} JoinSplit(s: String, sep: char)
    ensures Join(Split(s, sep), [sep]) == s
    decreases |s|
  {
    if s != [] {
      var rest := Split(s[1..], sep);
      JoinSplit(s[1..], sep);
      SplitShape(s[1..], sep);
      if s[0] == sep {
        assert Join([[]] + rest, [sep]) == [] + [sep] + Join(rest, [sep]);
      } else {
        var parts := [[s[0]] + rest[0]] + rest[1..];
        if |rest| == 1 {
          assert Join(rest, [sep]) == rest[0];
        } else {
          assert Join(rest, [sep]) == rest[0] + [sep] + Join(rest[1..], [sep]);
          assert parts[1..] == rest[1..];
        }
      }
    }
  }

  /** Joining a part in front of at least one more puts a separator after it. */
  lemma JoinCons(x: String, parts: seq<String>, sep: String)
    requires |parts| >= 1
    ensures Join([x] + parts, sep) == x + sep + Join(parts, sep)
  {
    assert ([x] + parts)[1..] == parts;
  }

  /** Joining one more part appends it after a separator. */
  lemma {:induction false} JoinSnoc(parts: seq<String>, x: String, sep: String)
    ensures Join(parts + [x], sep) == if parts == [] then x else Join(parts, sep) + sep + x
    decreases |parts|
  {
    if |parts| >= 2 {
      assert (parts + [x])[1..] == parts[1..] + [x];
      JoinSnoc(parts[1..], x, sep);
    } else if |parts| == 1 {
      assert (parts + [x])[1..] == [x];
    }
  }

  /** Joining a prefix of the parts gives a prefix of joining them all. */
  lemma {:induction false} JoinPrefix(parts: seq<String>, j: nat, k: nat, sep: String)
    requires j <= k <= |parts|
    ensures Join(parts[..j], sep) <= Join(parts[..k], sep)
    decreases k - j
  {
    if j < k {
      JoinPrefix(parts, j, k - 1, sep);
      assert parts[..k] == parts[..k - 1] + [parts[k - 1]];
      JoinSnoc(parts[..k - 1], parts[k - 1], sep);
    }
  }

  // ---- Concat ----

  lemma {:induction false} ConcatAppend(a: seq<String>, b: seq<String>)
    ensures Concat(a + b) == Concat(a) + Concat(b)
    decreases |a|
  {
    if a == [] {
      assert a + b == b;
    } else {
      assert (a + b)[0] == a[0];
      assert (a + b)[1..] == a[1..] + b;
      ConcatAppend(a[1..], b);
    }
  }

  /** A prefix of the words concatenates to a prefix; it is proper when a nonempty word is left out. */
  lemma ConcatPrefix(words: seq<String>, i: nat)
    requires i <= |words|
    ensures Concat(words) == Concat(words[..i]) + Concat(words[i..])
    ensures i < |words| ==> Concat(words[i..]) == words[i] + Concat(words[i + 1..])
  {
    assert words == words[..i] + words[i..];
    ConcatAppend(words[..i], words[i..]);
    if i < |words| {
      assert words[i..][1..] == words[i + 1..];
    }
  }

  // ---- NonSpace and Fields ----

  lemma {:induction false} NonSpaceAppend(a: String, b: String)
    ensures NonSpace(a + b) == NonSpace(a) + NonSpace(b)
    decreases |a|
  {
    if a == [] {
      assert a + b == b;
    } else {
      assert (a + b)[0] == a[0];
      assert (a + b)[1..] == a[1..] + b;
      NonSpaceAppend(a[1..], b);
    }
  }

  lemma {:induction false} NonSpaceOfWord(w: String)
    requires forall k :: 0 <= k < |w| ==> !IsSpace(w[k])
    ensures NonSpace(w) == w
    decreases |w|
  {
    if w != [] {
      NonSpaceOfWord(w[1..]);
      assert [w[0]] + w[1..] == w;
    }
  }

  /** The fields hold exactly the non-space runes of s, in order. */
  lemma {:induction false} FieldsConcat(s: String)
    ensures Concat(Fields(s)) == NonSpace(s)
    decreases |s|
  {
    if s != [] {
      if IsSpace(s[0]) {
        FieldsConcat(s[1..]);
      } else {
        var w := WordAt(s);
        FieldsConcat(s[|w|..]);
        assert s == w + s[|w|..];
        NonSpaceAppend(w, s[|w|..]);
        NonSpaceOfWord(w);
        assert ([w] + Fields(s[|w|..]))[1..] == Fields(s[|w|..]);
      }
    }
  }

  /** A word without white space, followed by nothing or by white space, is the word WordAt finds. */
  lemma {:induction false} WordAtWord(w: String, t: String)
    requires forall k :: 0 <= k < |w| ==> !IsSpace(w[k])
    requires |t| == 0 || IsSpace(t[0])
    ensures WordAt(w + t) == w
    decreases |w|
  {
    if |w| == 0 {
      assert w + t == t;
    } else {
      assert (w + t)[1..] == w[1..] + t;
      WordAtWord(w[1..], t);
      assert [w[0]] + w[1..] == w;
    }
  }

  /** Fields finds exactly the words that were joined by single spaces: fields are maximal,
      so no word is split and no two words run together. */
  lemma {:induction false} FieldsJoin(ws: seq<String>)
    requires forall k :: 0 <= k < |ws| ==> ws[k] != []
    requires forall k, m :: 0 <= k < |ws| && 0 <= m < |ws[k]| ==> !IsSpace(ws[k][m])
    ensures Fields(Join(ws, " ")) == ws
    decreases |ws|
  {
    if |ws| == 1 {
      var w := ws[0];
      WordAtWord(w, []);
      assert w + [] == w;
      assert w[|w|..] == [];
    } else if |ws| > 1 {
      var w, tail := ws[0], ws[1..];
      var rest := Join(tail, " ");
      assert forall k :: 0 <= k < |tail| ==> tail[k] == ws[k + 1];
      FieldsJoin(tail);
      var s := w + " " + rest;
      WordAtWord(w, " " + rest);
      assert s == w + (" " + rest);
      assert s[|w|..] == " " + rest;
      assert (" " + rest)[1..] == rest;
      assert ws == [w] + tail;
    }
  }

  /** There are no fields exactly when every rune is white space. */
  lemma {:induction false} FieldsEmpty(s: String)
    ensures Fields(s) == [] <==> forall k :: 0 <= k < |s| ==> IsSpace(s[k])
    decreases |s|
  {
    if s != [] {
      if IsSpace(s[0]) {
        FieldsEmpty(s[1..]);
        assert forall k :: 1 <= k < |s| ==> s[k] == s[1..][k - 1];
      }
    }
  }
}
