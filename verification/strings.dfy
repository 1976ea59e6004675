/**
  The string and sequence primitives of Python that the modelled code relies on:
  `isspace`, `lower`, `strip`, `split`, `join`, `find`, `count`, `replace`,
  `splitlines`, `startswith`/`endswith`/`in`, and slicing with possibly
  negative bounds.

  Characters are restricted to the ASCII range where Python is Unicode-aware:
  whitespace is the ten code points below 128 that `str.isspace` accepts,
  `lower` maps only `A`-`Z`, a word character (regex `\w`) is `[A-Za-z0-9_]`,
  and the line boundaries of `splitlines` are the seven below 128.
*/
module Strings {

  /** Python's `str.isspace` on one character, below code point 128. */
  predicate IsSpace(c: char) {
    c == ' ' || ('\t' <= c <= '\r') || ('\U{1C}' <= c <= '\U{1F}')
  }

  /** A character of the regex class `\w`, ASCII only. */
  predicate IsWordChar(c: char) {
    ('a' <= c <= 'z') || ('A' <= c <= 'Z') || ('0' <= c <= '9') || c == '_'
  }

  predicate NoSpace(s: string) {
    forall i :: 0 <= i < |s| ==> !IsSpace(s[i])
  }

  predicate AllSpace(s: string) {
    forall i :: 0 <= i < |s| ==> IsSpace(s[i])
  }

  function LowerChar(c: char): char {
    if 'A' <= c <= 'Z' then (c as int + 32) as char else c
  }

  /** Python's `str.lower`, ASCII letters only. */
  function Lower(s: string): (r: string)
    ensures |r| == |s|
    ensures forall i :: 0 <= i < |s| ==> r[i] == LowerChar(s[i])
  {
    seq(|s|, i requires 0 <= i < |s| => LowerChar(s[i]))
  }

  lemma LowerIdempotent(s: string)
    ensures Lower(Lower(s)) == Lower(s)
  {
  }

  predicate StartsWith(s: string, prefix: string) {
    |prefix| <= |s| && s[..|prefix|] == prefix
  }

  predicate EndsWith(s: string, suffix: string) {
    |suffix| <= |s| && s[|s| - |suffix|..] == suffix
  }

  predicate OccursAt(sub: string, s: string, i: int) {
    0 <= i <= |s| - |sub| && s[i..i + |sub|] == sub
  }

  /** Python's `sub in s`. */
  predicate IsInfix(sub: string, s: string) {
    exists i :: 0 <= i <= |s| - |sub| && OccursAt(sub, s, i)
  }

  // ---------------------------------------------------------------------------
  // Stripping
  // ---------------------------------------------------------------------------

  /** Python's `str.lstrip()`. */
  function LStrip(s: string): (r: string)
    ensures |r| <= |s| && r == s[|s| - |r|..]
    ensures AllSpace(s[..|s| - |r|])
    ensures |r| > 0 ==> !IsSpace(r[0])
    decreases |s|
  {
    if |s| > 0 && IsSpace(s[0]) then LStrip(s[1..]) else s
  }

  /** Python's `str.rstrip()`. */
  function RStrip(s: string): (r: string)
    ensures |r| <= |s| && r == s[..|r|]
    ensures AllSpace(s[|r|..])
    ensures |r| > 0 ==> !IsSpace(r[|r| - 1])
    decreases |s|
  {
    if |s| > 0 && IsSpace(s[|s| - 1]) then RStrip(s[..|s| - 1]) else s
  }

  /** `r` is `s` with a run of whitespace removed from each end, and no more. */
  ghost predicate IsStripOf(r: string, s: string) {
    && (|r| > 0 ==> !IsSpace(r[0]) && !IsSpace(r[|r| - 1]))
    && exists a :: 0 <= a <= |s| - |r| && s[a..a + |r|] == r && AllSpace(s[..a]) && AllSpace(s[a + |r|..])
  }

  /** Python's `str.strip()`. */
  function Strip(s: string): (r: string)
    ensures |r| <= |s|
    ensures |r| > 0 ==> !IsSpace(r[0]) && !IsSpace(r[|r| - 1])
  {
    RStrip(LStrip(s))
  }

  /** `str.strip()` removes the whitespace run at each end of the text and nothing else. */
  lemma StripSpec(s: string)
    ensures IsStripOf(Strip(s), s)
  {
    var l := LStrip(s);
    StripWitness(s, l, RStrip(l));
  }

  /** `Strip(s)` is the slice of `s` starting at the returned offset. */
  lemma StripIsSlice(s: string) returns (a: nat)
    ensures a + |Strip(s)| <= |s| && Strip(s) == s[a..a + |Strip(s)|]
  {
    var l := LStrip(s);
    StripWitness(s, l, RStrip(l));
    a := |s| - |l|;
  }

  /** The conditions that the two one-sided strips establish make `r` the strip of `s`. */
  lemma StripWitness(s: string, l: string, r: string)
    requires |l| <= |s| && l == s[|s| - |l|..] && AllSpace(s[..|s| - |l|]) && (|l| > 0 ==> !IsSpace(l[0]))
    requires |r| <= |l| && r == l[..|r|] && AllSpace(l[|r|..]) && (|r| > 0 ==> !IsSpace(r[|r| - 1]))
    ensures IsStripOf(r, s)
    ensures var a := |s| - |l|; a + |r| <= |s| && r == s[a..a + |r|]
  {
    var a := |s| - |l|;
    PrefixOfSuffix(s, l, r);
    if |r| > 0 {
      assert r[0] == l[0];
    }
    assert 0 <= a <= |s| - |r| && s[a..a + |r|] == r && AllSpace(s[..a]) && AllSpace(s[a + |r|..]);
  }

  /** A prefix `r` of a suffix `l` of `s` sits in `s` where `l` starts. */
  lemma PrefixOfSuffix(s: string, l: string, r: string)
    requires |l| <= |s| && l == s[|s| - |l|..] && |r| <= |l| && r == l[..|r|]
    ensures var a := |s| - |l|; s[a..a + |r|] == r && s[a + |r|..] == l[|r|..]
  {
    var a := |s| - |l|;
    assert forall k :: 0 <= k < |r| ==> s[a..a + |r|][k] == r[k];
    assert forall k :: 0 <= k < |l| - |r| ==> s[a + |r|..][k] == l[|r|..][k];
  }

  lemma {:induction false} LStripSpaces(w: string, x: string)
    requires AllSpace(w)
    requires |x| > 0 ==> !IsSpace(x[0])
    ensures LStrip(w + x) == x
    decreases |w|
  {
    if |w| > 0 {
      assert (w + x)[1..] == w[1..] + x;
      assert AllSpace(w[1..]);
      LStripSpaces(w[1..], x);
    } else {
      assert w + x == x;
    }
  }

  lemma {:induction false} RStripSpaces(x: string, w: string)
    requires AllSpace(w)
    requires |x| > 0 ==> !IsSpace(x[|x| - 1])
    ensures RStrip(x + w) == x
    decreases |w|
  {
    if |w| > 0 {
      assert (x + w)[..|x + w| - 1] == x + w[..|w| - 1];
      assert AllSpace(w[..|w| - 1]);
      RStripSpaces(x, w[..|w| - 1]);
    } else {
      assert x + w == x;
    }
  }

  /** Stripping removes exactly surrounding whitespace from a text with non-space ends. */
  lemma StripSurrounded(pre: string, x: string, post: string)
    requires AllSpace(pre) && AllSpace(post)
    requires |x| > 0 ==> !IsSpace(x[0]) && !IsSpace(x[|x| - 1])
    ensures Strip(pre + x + post) == x
  {
    if |x| > 0 {
      assert (x + post)[0] == x[0];
      LStripSpaces(pre, x + post);
      assert pre + x + post == pre + (x + post);
      RStripSpaces(x, post);
    } else {
      assert pre + x + post == pre + post;
      LStripSpaces(pre + post, "");
      assert pre + post + "" == pre + post;
    }
  }

  /** `str.strip()` is idempotent. */
  lemma StripIdempotent(s: string)
    ensures Strip(Strip(s)) == Strip(s)
  {
    var r := Strip(s);
    StripSurrounded("", r, "");
    assert "" + r + "" == r;
  }

  // ---------------------------------------------------------------------------
  // Splitting and joining
  // ---------------------------------------------------------------------------

  /** Length of the run of non-space characters at the start of `s`. */
  function WordLen(s: string): (n: nat)
    ensures n <= |s|
    ensures NoSpace(s[..n])
    ensures n < |s| ==> IsSpace(s[n])
    decreases |s|
  {
    if |s| == 0 || IsSpace(s[0]) then 0 else 1 + WordLen(s[1..])
  }

  predicate IsWord(w: string) {
    |w| > 0 && NoSpace(w)
  }

  /** Python's `str.split()` with no separator: the maximal runs of non-space characters. */
  function Words(s: string): (ws: seq<string>)
    ensures forall k :: 0 <= k < |ws| ==> IsWord(ws[k])
    decreases |s|
  {
    var t := LStrip(s);
    if |t| == 0 then []
    else
      var n := WordLen(t);
      [t[..n]] + Words(t[n..])
  }

  /** Python's `sep.join(parts)`. */
  function Join(sep: string, parts: seq<string>): string
    decreases |parts|
  {
    if |parts| == 0 then ""
    else if |parts| == 1 then parts[0]
    else parts[0] + sep + Join(sep, parts[1..])
  }

  /** The characters of `s` that are not whitespace, in order. */
  function NonSpace(s: string): string
  {
    if |s| == 0 then ""
    else if IsSpace(s[0]) then NonSpace(s[1..])
    else [s[0]] + NonSpace(s[1..])
  }

  function Concat(parts: seq<string>): string
  {
    if |parts| == 0 then "" else parts[0] + Concat(parts[1..])
  }

  lemma {:induction false} NonSpaceAppend(a: string, b: string)
    ensures NonSpace(a + b) == NonSpace(a) + NonSpace(b)
    decreases |a|
  {
    if |a| == 0 {
      assert a + b == b;
    } else {
      assert (a + b)[1..] == a[1..] + b;
      NonSpaceAppend(a[1..], b);
    }
  }

  lemma {:induction false} NonSpaceOfSpaces(s: string)
    requires AllSpace(s)
    ensures NonSpace(s) == ""
    decreases |s|
  {
    if |s| > 0 {
      assert AllSpace(s[1..]);
      NonSpaceOfSpaces(s[1..]);
    }
  }

  lemma {:induction false} NonSpaceOfWord(s: string)
    requires NoSpace(s)
    ensures NonSpace(s) == s
    decreases |s|
  {
    if |s| > 0 {
      assert NoSpace(s[1..]);
      NonSpaceOfWord(s[1..]);
    }
  }

  /** One step of `str.split()`: the first word after the leading whitespace, then the words of the rest. */
  lemma WordsUnfold(s: string)
    ensures var t := LStrip(s);
      |t| > 0 ==> WordLen(t) > 0 && Words(s) == [t[..WordLen(t)]] + Words(t[WordLen(t)..])
  {
  }

  lemma NonSpaceLStrip(s: string)
    ensures NonSpace(LStrip(s)) == NonSpace(s)
  {
    var t := LStrip(s);
    var w := s[..|s| - |t|];
    assert s == w + t;
    NonSpaceAppend(w, t);
    NonSpaceOfSpaces(w);
  }

  lemma NonSpaceWordThenRest(t: string, n: nat)
    requires n <= |t| && NoSpace(t[..n])
    ensures NonSpace(t) == t[..n] + NonSpace(t[n..])
  {
    assert t == t[..n] + t[n..];
    NonSpaceAppend(t[..n], t[n..]);
    NonSpaceOfWord(t[..n]);
  }

  lemma ConcatCons(a: string, rest: seq<string>)
    ensures Concat([a] + rest) == a + Concat(rest)
  {
    assert ([a] + rest)[1..] == rest;
  }

  /** `str.split()` loses exactly the whitespace: the words concatenated are the non-space characters. */
  lemma {:induction false} WordsKeepNonSpace(s: string)
    ensures Concat(Words(s)) == NonSpace(s)
    decreases |s|
  {
    var t := LStrip(s);
    NonSpaceLStrip(s);
    if |t| > 0 {
      var n := WordLen(t);
      WordsUnfold(s);
      ConcatCons(t[..n], Words(t[n..]));
      WordsKeepNonSpace(t[n..]);
      NonSpaceWordThenRest(t, n);
    }
  }

  /** Every character of `s` satisfies `p`. */
  predicate AllChars(p: char -> bool, s: string) {
    forall i :: 0 <= i < |s| ==> p(s[i])
  }

  lemma AllCharsSlice(p: char -> bool, s: string, i: nat, j: nat)
    requires AllChars(p, s) && i <= j <= |s|
    ensures AllChars(p, s[i..j])
  {
    forall k | 0 <= k < j - i ensures p(s[i..j][k]) {
      assert s[i..j][k] == s[i + k];
    }
  }

  lemma AllCharsCons(p: char -> bool, w: string, ws: seq<string>)
    requires AllChars(p, w) && forall k :: 0 <= k < |ws| ==> AllChars(p, ws[k])
    ensures forall k :: 0 <= k < |[w] + ws| ==> AllChars(p, ([w] + ws)[k])
  {
    forall k | 0 <= k < |[w] + ws| ensures AllChars(p, ([w] + ws)[k]) {
      if k > 0 {
        assert ([w] + ws)[k] == ws[k - 1];
      }
    }
  }

  /** The first word of a text and the text after it are cut from the text. */
  lemma WordsStep(p: char -> bool, s: string, n: nat)
    requires AllChars(p, s) && n <= |LStrip(s)|
    ensures AllChars(p, LStrip(s)[..n]) && AllChars(p, LStrip(s)[n..])
  {
    SuffixPieces(p, s, LStrip(s), n);
  }

  lemma SuffixPieces(p: char -> bool, s: string, t: string, n: nat)
    requires AllChars(p, s) && |t| <= |s| && t == s[|s| - |t|..] && n <= |t|
    ensures AllChars(p, t[..n]) && AllChars(p, t[n..])
  {
    forall k | 0 <= k < n ensures p(t[..n][k]) {
      assert t[..n][k] == s[|s| - |t| + k];
    }
    forall k | 0 <= k < |t| - n ensures p(t[n..][k]) {
      assert t[n..][k] == s[|s| - |t| + n + k];
    }
  }

  /** The words of a text are cut from it: what holds of every character holds of every word. */
  lemma {:induction false} WordsKeepChars(p: char -> bool, s: string)
    requires AllChars(p, s)
    ensures forall k :: 0 <= k < |Words(s)| ==> AllChars(p, Words(s)[k])
    decreases |s|
  {
    var t := LStrip(s);
    if |t| > 0 {
      var n := WordLen(t);
      WordsUnfold(s);
      WordsStep(p, s, n);
      WordsKeepChars(p, t[n..]);
      AllCharsCons(p, t[..n], Words(t[n..]));
    }
  }

  // ---------------------------------------------------------------------------
  // Searching, counting, replacing
  // ---------------------------------------------------------------------------

  /** Python's `s.find(c)` for one character: the first index holding `c`, or -1. */
  function Find(s: string, c: char): (i: int)
    ensures -1 <= i < |s|
    ensures i >= 0 ==> s[i] == c && c !in s[..i]
    ensures i == -1 ==> c !in s
    decreases |s|
  {
    if |s| == 0 then -1
    else if s[0] == c then 0
    else
      var k := Find(s[1..], c);
      assert s == [s[0]] + s[1..];
      if k == -1 then -1
      else
        assert s[..k + 1] == [s[0]] + s[1..][..k];
        k + 1
  }

  /** Python's `s.rfind(c)` for one character: the last index holding `c`, or -1. */
  function RFind(s: string, c: char): (i: int)
    ensures -1 <= i < |s|
    ensures i >= 0 ==> s[i] == c && c !in s[i + 1..]
    ensures i == -1 ==> c !in s
    decreases |s|
  {
    if |s| == 0 then -1
    else if s[|s| - 1] == c then |s| - 1
    else
      assert s == s[..|s| - 1] + [s[|s| - 1]];
      var k := RFind(s[..|s| - 1], c);
      assert k >= 0 ==> s[k + 1..] == s[..|s| - 1][k + 1..] + [s[|s| - 1]];
      k
  }

  /** Python's `s.count(sub)`: non-overlapping occurrences scanned left to right. */
  function Count(s: string, sub: string): nat
    decreases |s|
  {
    if |sub| == 0 then |s| + 1
    else if |s| < |sub| then 0
    else if s[..|sub|] == sub then 1 + Count(s[|sub|..], sub)
    else Count(s[1..], sub)
  }

  lemma OccursShift(sub: string, s: string, i: nat)
    requires |s| > 0
    ensures OccursAt(sub, s[1..], i) <==> OccursAt(sub, s, i + 1)
  {
    if i + 1 <= |s| - |sub| {
      assert s[1..][i..i + |sub|] == s[i + 1..i + 1 + |sub|];
    }
  }

  /** A text of at least one character has an occurrence at its start or in its tail. */
  lemma InfixCases(sub: string, s: string)
    requires |sub| > 0 && |s| > 0
    ensures IsInfix(sub, s) <==> StartsWith(s, sub) || IsInfix(sub, s[1..])
  {
    if IsInfix(sub, s) {
      var i :| 0 <= i <= |s| - |sub| && OccursAt(sub, s, i);
      if i > 0 {
        OccursShift(sub, s, i - 1);
      }
    }
    if IsInfix(sub, s[1..]) {
      var i :| 0 <= i <= |s[1..]| - |sub| && OccursAt(sub, s[1..], i);
      OccursShift(sub, s, i);
    }
    if StartsWith(s, sub) {
      assert OccursAt(sub, s, 0);
    }
  }

  /** `s.count(sub)` is zero exactly when `sub` does not occur in `s`. */
  lemma {:induction false} CountZeroIff(s: string, sub: string)
    ensures Count(s, sub) == 0 <==> !IsInfix(sub, s)
    decreases |s|
  {
    if |sub| == 0 {
      assert OccursAt(sub, s, 0);
    } else if |s| < |sub| {
    } else if s[..|sub|] == sub {
      assert OccursAt(sub, s, 0);
    } else {
      CountZeroIff(s[1..], sub);
      InfixCases(sub, s);
    }
  }

  /** Python's `s.replace(pat, rep)`: every non-overlapping occurrence, left to right. */
  function Replace(s: string, pat: string, rep: string): string
    decreases |s|
  {
    if |pat| == 0 then
      if |s| == 0 then rep else rep + [s[0]] + Replace(s[1..], pat, rep)
    else if |s| < |pat| then s
    else if s[..|pat|] == pat then rep + Replace(s[|pat|..], pat, rep)
    else [s[0]] + Replace(s[1..], pat, rep)
  }

  /** Replacing one character by another rewrites exactly the positions that held it. */
  lemma {:induction false} ReplaceChar(s: string, c: char, d: char)
    ensures |Replace(s, [c], [d])| == |s|
    ensures forall i :: 0 <= i < |s| ==> Replace(s, [c], [d])[i] == if s[i] == c then d else s[i]
    decreases |s|
  {
    if |s| > 0 {
      ReplaceChar(s[1..], c, d);
      var r := Replace(s, [c], [d]);
      var rest := Replace(s[1..], [c], [d]);
      assert r == [if s[0] == c then d else s[0]] + rest by {
        assert s[..1] == [s[0]];
      }
      forall i | 0 <= i < |s| ensures r[i] == if s[i] == c then d else s[i] {
        if i > 0 {
          assert r[i] == rest[i - 1] && s[1..][i - 1] == s[i];
        }
      }
    }
  }

  /** A line boundary of `str.splitlines()` below code point 128 (`"\r\n"` counts once). */
  predicate IsLineBreak(c: char) {
    c == '\n' || c == '\r' || c == '\U{0B}' || c == '\U{0C}' || ('\U{1C}' <= c <= '\U{1E}')
  }

  predicate NoBreak(s: string) {
    forall i :: 0 <= i < |s| ==> !IsLineBreak(s[i])
  }

  /** Every line boundary in `s` is a plain `"\n"`. */
  predicate OnlyNewlines(s: string) {
    forall i :: 0 <= i < |s| && IsLineBreak(s[i]) ==> s[i] == '\n'
  }

  /** How many characters of `s` are line boundaries. */
  function LineBreaks(s: string): nat
    decreases |s|
  {
    if |s| == 0 then 0 else (if IsLineBreak(s[0]) then 1 else 0) + LineBreaks(s[1..])
  }

  lemma {:induction false} LineBreaksAppend(a: string, b: string)
    ensures LineBreaks(a + b) == LineBreaks(a) + LineBreaks(b)
    decreases |a|
  {
    if |a| == 0 {
      assert a + b == b;
    } else {
      assert (a + b)[0] == a[0] && (a + b)[1..] == a[1..] + b;
      LineBreaksAppend(a[1..], b);
    }
  }

  lemma {:induction false} NoBreakHasNoLineBreaks(s: string)
    requires NoBreak(s)
    ensures LineBreaks(s) == 0
    decreases |s|
  {
    if |s| > 0 {
      NoBreakHasNoLineBreaks(s[1..]);
    }
  }

  /** A prefix has no more line boundaries than the whole text. */
  lemma LineBreaksPrefix(s: string, n: nat)
    requires n <= |s|
    ensures LineBreaks(s[..n]) <= LineBreaks(s)
  {
    assert s == s[..n] + s[n..];
    LineBreaksAppend(s[..n], s[n..]);
  }

  /** Joining lines without boundaries by `"\n"` puts exactly one boundary between neighbours. */
  lemma {:induction false} JoinLineBreaks(ls: seq<string>)
    requires forall k :: 0 <= k < |ls| ==> NoBreak(ls[k])
    ensures LineBreaks(Join("\n", ls)) == if |ls| == 0 then 0 else |ls| - 1
    decreases |ls|
  {
    if |ls| == 1 {
      NoBreakHasNoLineBreaks(ls[0]);
    } else if |ls| > 1 {
      var rest := Join("\n", ls[1..]);
      JoinLineBreaks(ls[1..]);
      NoBreakHasNoLineBreaks(ls[0]);
      assert LineBreaks("\n") == 1;
      LineBreaksAppend(ls[0], "\n");
      LineBreaksAppend(ls[0] + "\n", rest);
    }
  }

  /** Length of the run of characters before the first line boundary of `s`. */
  function LineLen(s: string): (n: nat)
    ensures n <= |s|
    ensures NoBreak(s[..n])
    ensures n < |s| ==> IsLineBreak(s[n])
    decreases |s|
  {
    if |s| == 0 || IsLineBreak(s[0]) then 0 else 1 + LineLen(s[1..])
  }

  /** How many characters the line boundary at `n` takes: two for `"\r\n"`, else one. */
  function BreakLen(s: string, n: nat): nat
    requires n < |s|
  {
    if s[n] == '\r' && n + 1 < |s| && s[n + 1] == '\n' then 2 else 1
  }

  /** Python's `str.splitlines()`: the lines without their boundaries, no final empty line. */
  function SplitLines(s: string): (ls: seq<string>)
    ensures forall k :: 0 <= k < |ls| ==> NoBreak(ls[k])
    decreases |s|
  {
    if |s| == 0 then []
    else
      var n := LineLen(s);
      if n == |s| then [s] else [s[..n]] + SplitLines(s[n + BreakLen(s, n)..])
  }

  lemma JoinCons(sep: string, a: string, xs: seq<string>)
    requires |xs| > 0
    ensures Join(sep, [a] + xs) == a + sep + Join(sep, xs)
  {
    assert ([a] + xs)[1..] == xs;
  }

  lemma PrefixAfterBreak(s: string, k: nat, j: string)
    requires k < |s| && s[k] == '\n' && StartsWith(s[k + 1..], j)
    ensures StartsWith(s, s[..k] + "\n" + j)
  {
    assert s[..k + 1 + |j|] == s[..k] + "\n" + j;
  }

  /**
   * Re-joining the first lines of a text whose boundaries are all `"\n"` gives back a
   * prefix of that text.
   */
  lemma {:induction false} JoinedLinesArePrefix(s: string, n: nat)
    requires OnlyNewlines(s)
    ensures n <= |SplitLines(s)| ==> StartsWith(s, Join("\n", SplitLines(s)[..n]))
    decreases |s|
  {
    var ls := SplitLines(s);
    if 0 < n <= |ls| {
      var k := LineLen(s);
      if k == |s| {
        assert ls == [s];
        assert ls[..n] == [s];
      } else {
        assert s[k] == '\n' && BreakLen(s, k) == 1;
        var rest := SplitLines(s[k + 1..]);
        assert ls == [s[..k]] + rest;
        if n == 1 {
          assert ls[..n] == [s[..k]];
        } else {
          OnlyNewlinesSuffix(s, k + 1);
          JoinedLinesArePrefix(s[k + 1..], n - 1);
          assert ls[..n] == [s[..k]] + rest[..n - 1];
          JoinCons("\n", s[..k], rest[..n - 1]);
          PrefixAfterBreak(s, k, Join("\n", rest[..n - 1]));
        }
      }
    }
  }

  lemma OnlyNewlinesSuffix(s: string, j: nat)
    requires OnlyNewlines(s) && j <= |s|
    ensures OnlyNewlines(s[j..])
  {
    var t := s[j..];
    forall i | 0 <= i < |t| ensures IsLineBreak(t[i]) ==> t[i] == '\n' {
      assert t[i] == s[j + i];
    }
  }

  /**
   * Re-joining all lines of a text whose boundaries are all `"\n"`, and that does not end
   * with one, gives the text back.
   */
  lemma {:induction false} JoinSplitLines(s: string)
    requires OnlyNewlines(s) && (|s| > 0 ==> s[|s| - 1] != '\n')
    ensures Join("\n", SplitLines(s)) == s
    decreases |s|
  {
    if |s| > 0 {
      var k := LineLen(s);
      if k < |s| {
        assert s[k] == '\n' && BreakLen(s, k) == 1;
        var t := s[k + 1..];
        OnlyNewlinesSuffix(s, k + 1);
        assert |t| > 0 && t[|t| - 1] == s[|s| - 1];
        JoinSplitLines(t);
        assert SplitLines(s) == [s[..k]] + SplitLines(t);
        JoinCons("\n", s[..k], SplitLines(t));
        assert s == s[..k] + "\n" + t;
      }
    }
  }

  /** Parts without line boundaries joined by `"\n"` have only `"\n"` boundaries. */
  lemma {:induction false} JoinKeepsOnlyNewlines(parts: seq<string>)
    requires forall k :: 0 <= k < |parts| ==> NoBreak(parts[k])
    ensures OnlyNewlines(Join("\n", parts))
    decreases |parts|
  {
    if |parts| > 1 {
      JoinKeepsOnlyNewlines(parts[1..]);
      var rest := Join("\n", parts[1..]);
      var j := parts[0] + "\n" + rest;
      forall i | 0 <= i < |j| ensures IsLineBreak(j[i]) ==> j[i] == '\n' {
        if i < |parts[0]| {
          assert j[i] == parts[0][i];
        } else if i > |parts[0]| {
          assert j[i] == rest[i - |parts[0]| - 1];
        }
      }
    }
  }

  /** The three parts of `a + b + c` are where they should be. */
  lemma Framed(a: string, b: string, c: string)
    ensures StartsWith(a + b + c, a) && EndsWith(a + b + c, c)
    ensures OccursAt(b, a + b + c, |a|)
  {
    assert (a + b + c)[|a|..|a| + |b|] == b;
  }

  /** The four parts of `a + b + c + d` are where they should be. */
  lemma Framed4(a: string, b: string, c: string, d: string)
    ensures StartsWith(a + b + c + d, a) && EndsWith(a + b + c + d, d)
    ensures OccursAt(b, a + b + c + d, |a|) && OccursAt(c, a + b + c + d, |a| + |b|)
  {
    assert (a + b + c + d)[|a|..|a| + |b|] == b;
    assert (a + b + c + d)[|a| + |b|..|a| + |b| + |c|] == c;
  }

  lemma StartsWithTrans(s: string, p: string, q: string)
    requires StartsWith(s, p) && StartsWith(p, q)
    ensures StartsWith(s, q)
  {
    assert s[..|q|] == p[..|p|][..|q|];
  }

  lemma EndsWithTrans(s: string, p: string, q: string)
    requires EndsWith(s, p) && EndsWith(p, q)
    ensures EndsWith(s, q)
  {
    assert s[|s| - |q|..] == s[|s| - |p|..][|p| - |q|..];
  }

  /** An occurrence in `s` is an occurrence in `pre + s`, shifted by `|pre|`. */
  lemma ShiftOccurs(pre: string, s: string, sub: string, i: int)
    requires OccursAt(sub, s, i)
    ensures OccursAt(sub, pre + s, |pre| + i)
  {
    assert (pre + s)[|pre| + i..|pre| + i + |sub|] == s[i..i + |sub|];
  }

  /** Where part `k` starts in `Join(sep, parts)`: every earlier part plus its separator. */
  function JoinOffset(sep: string, parts: seq<string>, k: nat): nat
    requires k <= |parts|
    decreases k
  {
    if k == 0 then 0 else |parts[0]| + |sep| + JoinOffset(sep, parts[1..], k - 1)
  }

  /** `Join` lays the parts out in order, one separator between neighbours and nothing else. */
  lemma {:induction false} JoinInOrder(sep: string, parts: seq<string>, k: nat)
    requires k < |parts|
    ensures OccursAt(parts[k], Join(sep, parts), JoinOffset(sep, parts, k))
    ensures k + 1 < |parts| ==> OccursAt(sep, Join(sep, parts), JoinOffset(sep, parts, k) + |parts[k]|)
    ensures k + 1 == |parts| ==> |Join(sep, parts)| == JoinOffset(sep, parts, k) + |parts[k]|
    decreases k
  {
    if |parts| == 1 {
      assert Join(sep, parts)[0..|parts[0]|] == parts[0];
    } else {
      var rest := Join(sep, parts[1..]);
      assert Join(sep, parts) == parts[0] + sep + rest;
      if k == 0 {
        Framed(parts[0], sep, rest);
        assert Join(sep, parts)[0..|parts[0]|] == parts[0];
      } else {
        JoinInOrder(sep, parts[1..], k - 1);
        assert parts[1..][k - 1] == parts[k];
        var off := JoinOffset(sep, parts[1..], k - 1);
        ShiftOccurs(parts[0] + sep, rest, parts[k], off);
        if k + 1 < |parts| {
          ShiftOccurs(parts[0] + sep, rest, sep, off + |parts[k]|);
        }
      }
    }
  }

  // ---------------------------------------------------------------------------
  // Slicing with Python's bound normalisation
  // ---------------------------------------------------------------------------

  /** The index a Python slice bound `i` denotes in a sequence of length `n`. */
  function SliceIndex(i: int, n: nat): (k: nat)
    ensures k <= n
    ensures 0 <= i <= n ==> k == i
    ensures i > n ==> k == n
    ensures i < 0 ==> k == if n + i < 0 then 0 else n + i
  {
    if i < 0 then (if n + i < 0 then 0 else n + i) else if i > n then n else i
  }

  /** Python's `s[:stop]`. */
  function SliceTo<T>(s: seq<T>, stop: int): seq<T>
  {
    s[..SliceIndex(stop, |s|)]
  }

  /** Python's `s[start:]`. */
  function SliceFrom<T>(s: seq<T>, start: int): seq<T>
  {
    s[SliceIndex(start, |s|)..]
  }
}
