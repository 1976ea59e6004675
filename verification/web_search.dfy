/**
  server/app/rag/mock_web_search.py: an offline stand-in for web search. The query is cut
  into tokens, every markdown file of a directory is scored by how often the tokens occur
  in it, and the best-scoring files come back with a title and a short snippet.
*/
module WebSearch {
  import opened Wrappers
  import opened Strings

  // ----- tokens -----

  /** A character the tokenizer keeps, the regex class `[a-z0-9\s\-/_.:]`. */
  predicate TokenChar(c: char) {
    ('a' <= c <= 'z') || ('0' <= c <= '9') || IsSpace(c) || c == '-' || c == '/' || c == '_' || c == '.' || c == ':'
  }

  /** The substitution of `_tokenize`: every character outside the class becomes a space. */
  function Scrub(q: string): (r: string)
    ensures |r| == |q|
    ensures forall i :: 0 <= i < |q| ==> r[i] == if TokenChar(q[i]) then q[i] else ' '
  {
    seq(|q|, i requires 0 <= i < |q| => if TokenChar(q[i]) then q[i] else ' ')
  }

  /** The words of at least three characters, in their order. */
  function LongWords(ws: seq<string>): (r: seq<string>)
    ensures |r| <= |ws|
    ensures forall w :: w in r <==> w in ws && |w| >= 3
  {
    if |ws| == 0 then []
    else
      assert forall w :: w in ws <==> w == ws[0] || w in ws[1..];
      (if |ws[0]| >= 3 then [ws[0]] else []) + LongWords(ws[1..])
  }

  /** The long words of two lists one after the other are those of the first, then those of the second. */
  lemma {:induction false} LongWordsAppend(a: seq<string>, b: seq<string>)
    ensures LongWords(a + b) == LongWords(a) + LongWords(b)
    decreases |a|
  {
    if |a| == 0 {
      assert a + b == b;
    } else {
      assert (a + b)[0] == a[0] && (a + b)[1..] == a[1..] + b;
      LongWordsAppend(a[1..], b);
      var x := if |a[0]| >= 3 then [a[0]] else [];
      assert x + (LongWords(a[1..]) + LongWords(b)) == (x + LongWords(a[1..])) + LongWords(b);
    }
  }

  /** One word is kept exactly when it has at least three characters. */
  lemma LongWordsOne(w: string)
    ensures LongWords([w]) == if |w| >= 3 then [w] else []
  {
    assert [w][1..] == [];
  }

  /** The most tokens a query contributes. */
  const MaxTokens: nat := 25

  /** `_tokenize`: the words of three characters or more of the lowered, scrubbed query, at most 25. */
  function Tokenize(query: Option<string>): (toks: seq<string>)
    ensures |toks| <= MaxTokens
    ensures forall k :: 0 <= k < |toks| ==> |toks[k]| >= 3 && IsWord(toks[k]) && AllChars(TokenChar, toks[k])
    ensures forall k :: 0 <= k < |toks| ==> toks[k] in Words(Scrub(Lower(query.GetOr(""))))
    ensures var long := LongWords(Words(Scrub(Lower(query.GetOr("")))));
      && |toks| == (if |long| < MaxTokens then |long| else MaxTokens)
      && toks == long[..|toks|]
  {
    ScrubbedTokens(Lower(query.GetOr("")));
    SliceTo(LongWords(Words(Scrub(Lower(query.GetOr(""))))), MaxTokens)
  }

  /** Every scrubbed character is a token character. */
  lemma ScrubKeepsTokenChars(q: string)
    ensures AllChars(TokenChar, Scrub(q))
  {
  }

  /** The first long words of a scrubbed text are words of it, made of token characters. */
  lemma ScrubbedTokens(q: string)
    ensures var long := LongWords(Words(Scrub(q)));
      var toks := SliceTo(long, MaxTokens);
      && |toks| == (if |long| < MaxTokens then |long| else MaxTokens)
      && toks == long[..|toks|]
      && |toks| <= MaxTokens
      && forall k :: 0 <= k < |toks| ==>
           |toks[k]| >= 3 && IsWord(toks[k]) && AllChars(TokenChar, toks[k]) && toks[k] in Words(Scrub(q))
  {
    ScrubKeepsTokenChars(q);
    TokenWords(Scrub(q));
  }

  /** The first long words of a text of token characters are words of it, made of token characters. */
  lemma TokenWords(t: string)
    requires AllChars(TokenChar, t)
    ensures var long := LongWords(Words(t));
      var toks := SliceTo(long, MaxTokens);
      && |toks| == (if |long| < MaxTokens then |long| else MaxTokens)
      && toks == long[..|toks|]
      && |toks| <= MaxTokens
      && forall k :: 0 <= k < |toks| ==>
           |toks[k]| >= 3 && IsWord(toks[k]) && AllChars(TokenChar, toks[k]) && toks[k] in Words(t)
  {
    var ws := Words(t);
    WordsKeepChars(TokenChar, t);
    LongWordsKeep(TokenChar, ws);
    var long := LongWords(ws);
    var n := SliceIndex(MaxTokens, |long|);
    assert SliceTo(long, MaxTokens) == long[..n];
    forall k | 0 <= k < n
      ensures |long[..n][k]| >= 3 && IsWord(long[..n][k]) && AllChars(TokenChar, long[..n][k]) && long[..n][k] in ws
    {
      assert long[..n][k] == long[k];
    }
  }

  /** What holds of every word holds of every long word, and long words are words of the list. */
  lemma LongWordsKeep(p: char -> bool, ws: seq<string>)
    requires forall k :: 0 <= k < |ws| ==> IsWord(ws[k]) && AllChars(p, ws[k])
    ensures var long := LongWords(ws);
      forall k :: 0 <= k < |long| ==> |long[k]| >= 3 && IsWord(long[k]) && AllChars(p, long[k]) && long[k] in ws
  {
    var long := LongWords(ws);
    forall k | 0 <= k < |long| ensures |long[k]| >= 3 && IsWord(long[k]) && AllChars(p, long[k]) && long[k] in ws {
      assert long[k] in long;
      var j :| 0 <= j < |ws| && ws[j] == long[k];
    }
  }

  /** Case does not matter to the tokenizer. */
  lemma TokenizeIgnoresCase(q: string)
    ensures Tokenize(Some(Lower(q))) == Tokenize(Some(q))
  {
    LowerIdempotent(q);
  }

  // ----- scores -----

  /** `_score`: how often the tokens occur in the lowered text, each counted as `str.count` does. */
  function Score(text: string, tokens: seq<string>): nat
    decreases |tokens|
  {
    if |tokens| == 0 then 0 else Count(Lower(text), tokens[0]) + Score(text, tokens[1..])
  }

  /** A text scores zero exactly when none of the tokens occurs in it, ignoring case. */
  lemma {:induction false} ScoreZeroIff(text: string, tokens: seq<string>)
    ensures Score(text, tokens) == 0 <==> forall k :: 0 <= k < |tokens| ==> !IsInfix(tokens[k], Lower(text))
    decreases |tokens|
  {
    if |tokens| > 0 {
      CountZeroIff(Lower(text), tokens[0]);
      ScoreZeroIff(text, tokens[1..]);
      assert forall k :: 1 <= k < |tokens| ==> tokens[k] == tokens[1..][k - 1];
    }
  }

  // ----- documents and hits -----

  /** A markdown file of the search directory: its path, its name without suffix, its text. */
  datatype Doc = Doc(path: string, stem: string, text: string)

  /** One search result. */
  datatype Hit = Hit(title: string, snippet: string, source: string, score: nat)

  /** The title of a hit: the file's stem with every underscore turned into a space. */
  function Title(stem: string): (t: string)
    ensures |t| == |stem|
    ensures forall i :: 0 <= i < |stem| ==> t[i] == if stem[i] == '_' then ' ' else stem[i]
  {
    ReplaceChar(stem, '_', ' ');
    Replace(stem, "_", " ")
  }

  /** The most lines and characters a snippet keeps. */
  const SnippetLines: nat := 12
  const SnippetChars: nat := 800

  /** The snippet of a hit: the first 12 lines of the stripped text, re-joined, then cut to 800 characters. */
  function Snippet(text: string): string {
    SliceTo(Join("\n", SliceTo(SplitLines(Strip(text)), SnippetLines)), SnippetChars)
  }

  /**
   * A snippet has at most 800 characters, no line boundary but `"\n"` and at most 11 of
   * those, so it spans at most 12 lines; when the stripped text has no other boundary, the
   * snippet is the start of it.
   */
  lemma SnippetShape(text: string)
    ensures |Snippet(text)| <= SnippetChars
    ensures OnlyNewlines(Snippet(text))
    ensures LineBreaks(Snippet(text)) < SnippetLines
    ensures OnlyNewlines(Strip(text)) ==> StartsWith(Strip(text), Snippet(text))
  {
    var s := Strip(text);
    var ls := SplitLines(s);
    var n := SliceIndex(SnippetLines, |ls|);
    var joined := Join("\n", ls[..n]);
    JoinKeepsOnlyNewlines(ls[..n]);
    var r := Snippet(text);
    assert r == joined[..SliceIndex(SnippetChars, |joined|)];
    assert forall k :: 0 <= k < n ==> ls[..n][k] == ls[k];
    JoinLineBreaks(ls[..n]);
    LineBreaksPrefix(joined, SliceIndex(SnippetChars, |joined|));
    assert StartsWith(joined, r);
    if OnlyNewlines(s) {
      JoinedLinesArePrefix(s, n);
      StartsWithTrans(s, joined, r);
    }
  }

  /** Cutting a short text with only `"\n"` boundaries and no final one into lines and back changes nothing. */
  lemma ShortTextKept(s: string)
    requires OnlyNewlines(s) && (|s| > 0 ==> !IsSpace(s[|s| - 1]))
    requires |SplitLines(s)| <= SnippetLines && |s| <= SnippetChars
    ensures SliceTo(Join("\n", SliceTo(SplitLines(s), SnippetLines)), SnippetChars) == s
  {
    var ls := SplitLines(s);
    assert SliceTo(ls, SnippetLines) == ls;
    JoinSplitLines(s);
  }

  /** A short text of at most 12 lines with only `"\n"` boundaries is its own snippet, once stripped. */
  lemma SnippetOfShortText(text: string)
    requires OnlyNewlines(Strip(text)) && |SplitLines(Strip(text))| <= SnippetLines
    requires |Strip(text)| <= SnippetChars
    ensures Snippet(text) == Strip(text)
  {
    ShortTextKept(Strip(text));
  }

  /** The result `mock_web_search` builds for one file. */
  function MakeHit(tokens: seq<string>, d: Doc): Hit {
    Hit(Title(d.stem), Snippet(d.text), d.path, Score(d.text, tokens))
  }

  /** The files of the listing that score above zero, in listing order. */
  function Relevant(tokens: seq<string>, docs: seq<Doc>): (r: seq<Doc>)
    ensures |r| <= |docs|
    ensures forall d :: d in r <==> d in docs && Score(d.text, tokens) > 0
  {
    if |docs| == 0 then []
    else
      assert forall d :: d in docs <==> d == docs[0] || d in docs[1..];
      (if Score(docs[0].text, tokens) > 0 then [docs[0]] else []) + Relevant(tokens, docs[1..])
  }

  /** Filtering two listings one after the other keeps the relevant files of each, in order. */
  lemma {:induction false} RelevantAppend(tokens: seq<string>, a: seq<Doc>, b: seq<Doc>)
    ensures Relevant(tokens, a + b) == Relevant(tokens, a) + Relevant(tokens, b)
    decreases |a|
  {
    if |a| == 0 {
      assert a + b == b;
    } else {
      assert (a + b)[0] == a[0] && (a + b)[1..] == a[1..] + b;
      RelevantAppend(tokens, a[1..], b);
      var x := if Score(a[0].text, tokens) > 0 then [a[0]] else [];
      assert x + (Relevant(tokens, a[1..]) + Relevant(tokens, b)) == (x + Relevant(tokens, a[1..])) + Relevant(tokens, b);
    }
  }

  /** One file is kept exactly when it scores above zero. */
  lemma RelevantOne(tokens: seq<string>, d: Doc)
    ensures Relevant(tokens, [d]) == if Score(d.text, tokens) > 0 then [d] else []
  {
    assert [d][1..] == [];
  }

  /** The loop of `mock_web_search`: one hit per relevant file, in listing order. */
  function Candidates(tokens: seq<string>, docs: seq<Doc>): (hs: seq<Hit>)
    ensures |hs| == |Relevant(tokens, docs)|
    ensures forall k :: 0 <= k < |hs| ==> hs[k] == MakeHit(tokens, Relevant(tokens, docs)[k]) && hs[k].score > 0
  {
    var ds := Relevant(tokens, docs);
    assert forall k :: 0 <= k < |ds| ==> ds[k] in ds;
    seq(|ds|, k requires 0 <= k < |ds| => MakeHit(tokens, ds[k]))
  }

  // ----- ranking -----

  /** Scores never increase along `hs`. */
  predicate SortedDesc(hs: seq<Hit>) {
    forall i, j :: 0 <= i < j < |hs| ==> hs[i].score >= hs[j].score
  }

  /** The hits of `hs` with score `v`, in their order. */
  function WithScore(hs: seq<Hit>, v: nat): seq<Hit>
  {
    if |hs| == 0 then [] else (if hs[0].score == v then [hs[0]] else []) + WithScore(hs[1..], v)
  }

  lemma {:induction false} WithScoreAppend(a: seq<Hit>, b: seq<Hit>, v: nat)
    ensures WithScore(a + b, v) == WithScore(a, v) + WithScore(b, v)
    decreases |a|
  {
    if |a| == 0 {
      assert a + b == b;
    } else {
      assert (a + b)[0] == a[0] && (a + b)[1..] == a[1..] + b;
      WithScoreAppend(a[1..], b, v);
      var x := if a[0].score == v then [a[0]] else [];
      calc {
        WithScore(a + b, v);
        x + WithScore(a[1..] + b, v);
        x + (WithScore(a[1..], v) + WithScore(b, v));
        (x + WithScore(a[1..], v)) + WithScore(b, v);
      }
    }
  }

  lemma {:induction false} WithScoreNone(hs: seq<Hit>, v: nat)
    requires forall k :: 0 <= k < |hs| ==> hs[k].score < v
    ensures WithScore(hs, v) == []
    decreases |hs|
  {
    if |hs| > 0 {
      WithScoreNone(hs[1..], v);
    }
  }

  /** Put `h` after every hit scoring at least as much, before the first scoring less. */
  function Insert(h: Hit, hs: seq<Hit>): (r: seq<Hit>)
    ensures |r| == |hs| + 1
    decreases |hs|
  {
    if |hs| == 0 then [h]
    else if hs[0].score >= h.score then [hs[0]] + Insert(h, hs[1..])
    else [h] + hs
  }

  /** Inserting adds exactly the one hit. */
  lemma {:induction false} InsertPermutes(h: Hit, hs: seq<Hit>)
    ensures multiset(Insert(h, hs)) == multiset(hs) + multiset{h}
    decreases |hs|
  {
    if |hs| > 0 && hs[0].score >= h.score {
      InsertPermutes(h, hs[1..]);
      assert hs == [hs[0]] + hs[1..];
    }
  }

  /** Inserting into a ranking gives a ranking. */
  lemma {:induction false} InsertSorted(h: Hit, hs: seq<Hit>)
    requires SortedDesc(hs)
    ensures SortedDesc(Insert(h, hs))
    decreases |hs|
  {
    if |hs| == 0 {
    } else if hs[0].score >= h.score {
      var rest := Insert(h, hs[1..]);
      InsertSorted(h, hs[1..]);
      InsertPermutes(h, hs[1..]);
      HeadBoundsRest(h, hs, rest);
      SortedCons(hs[0], rest);
      assert Insert(h, hs) == [hs[0]] + rest;
    } else {
      assert forall k :: 0 <= k < |hs| ==> h.score >= hs[k].score;
      SortedCons(h, hs);
    }
  }

  /** A hit scoring at least as much as every hit of a ranking can go in front of it. */
  lemma SortedCons(x: Hit, rest: seq<Hit>)
    requires SortedDesc(rest) && forall k :: 0 <= k < |rest| ==> x.score >= rest[k].score
    ensures SortedDesc([x] + rest)
  {
    var r := [x] + rest;
    forall i, j | 0 <= i < j < |r| ensures r[i].score >= r[j].score {
      assert r[j] == rest[j - 1];
      if i > 0 {
        assert r[i] == rest[i - 1];
      }
    }
  }

  /** The head of a ranking scores at least as much as `h` and every later hit. */
  lemma HeadBoundsRest(h: Hit, hs: seq<Hit>, rest: seq<Hit>)
    requires SortedDesc(hs) && |hs| > 0 && hs[0].score >= h.score
    requires multiset(rest) == multiset(hs[1..]) + multiset{h}
    ensures forall k :: 0 <= k < |rest| ==> hs[0].score >= rest[k].score
  {
    var tail := hs[1..];
    forall k | 0 <= k < |rest| ensures hs[0].score >= rest[k].score {
      assert rest[k] in multiset(rest);
      if rest[k] != h {
        assert rest[k] in multiset(tail);
        var j :| 0 <= j < |tail| && tail[j] == rest[k];
        assert hs[j + 1] == tail[j];
      }
    }
  }

  /** Inserting `h` appends it to the hits of equal score and leaves every other score alone. */
  lemma {:induction false} InsertWithScore(h: Hit, hs: seq<Hit>, v: nat)
    requires SortedDesc(hs)
    ensures WithScore(Insert(h, hs), v) == if h.score == v then WithScore(hs, v) + [h] else WithScore(hs, v)
    decreases |hs|
  {
    if |hs| == 0 {
    } else if hs[0].score >= h.score {
      var rest := Insert(h, hs[1..]);
      var r := [hs[0]] + rest;
      assert Insert(h, hs) == r;
      assert r[0] == hs[0] && r[1..] == rest;
      InsertWithScore(h, hs[1..], v);
      var x := if hs[0].score == v then [hs[0]] else [];
      assert WithScore(r, v) == x + WithScore(rest, v);
      assert WithScore(hs, v) == x + WithScore(hs[1..], v);
      if h.score == v {
        assert x + (WithScore(hs[1..], v) + [h]) == (x + WithScore(hs[1..], v)) + [h];
      }
    } else {
      var r := [h] + hs;
      assert Insert(h, hs) == r;
      assert r[0] == h && r[1..] == hs;
      if h.score == v {
        assert forall k :: 0 <= k < |hs| ==> hs[k].score < v by {
          forall k | 0 <= k < |hs| ensures hs[k].score < v {
            assert hs[0].score >= hs[k].score;
          }
        }
        WithScoreNone(hs, v);
      }
    }
  }

  /** `results.sort(key=score, reverse=True)`: Python's sort is stable, also in reverse. */
  function RankByScore(hs: seq<Hit>): (r: seq<Hit>)
    ensures |r| == |hs|
    decreases |hs|
  {
    if |hs| == 0 then []
    else Insert(hs[|hs| - 1], RankByScore(hs[..|hs| - 1]))
  }

  /** The ranking lists scores in descending order. */
  lemma {:induction false} RankSorted(hs: seq<Hit>)
    ensures SortedDesc(RankByScore(hs))
    decreases |hs|
  {
    if |hs| > 0 {
      var init := hs[..|hs| - 1];
      var last := hs[|hs| - 1];
      assert RankByScore(hs) == Insert(last, RankByScore(init));
      RankSorted(init);
      InsertSorted(last, RankByScore(init));
    }
  }

  /** The ranking is a permutation of the hits. */
  lemma {:induction false} RankPermutes(hs: seq<Hit>)
    ensures multiset(RankByScore(hs)) == multiset(hs)
    decreases |hs|
  {
    if |hs| > 0 {
      var init := hs[..|hs| - 1];
      var last := hs[|hs| - 1];
      var ranked := RankByScore(init);
      assert RankByScore(hs) == Insert(last, ranked);
      RankPermutes(init);
      InsertPermutes(last, ranked);
      PermuteStep(hs, init, last, ranked, RankByScore(hs));
    }
  }

  lemma PermuteStep(hs: seq<Hit>, init: seq<Hit>, last: Hit, ranked: seq<Hit>, out: seq<Hit>)
    requires |hs| > 0 && init == hs[..|hs| - 1] && last == hs[|hs| - 1]
    requires multiset(ranked) == multiset(init)
    requires multiset(out) == multiset(ranked) + multiset{last}
    ensures multiset(out) == multiset(hs)
  {
    assert hs == init + [last];
  }

  /** The ranking keeps the listing order among hits of equal score. */
  lemma {:induction false} RankIsStable(hs: seq<Hit>, v: nat)
    ensures WithScore(RankByScore(hs), v) == WithScore(hs, v)
    decreases |hs|
  {
    if |hs| > 0 {
      var init := hs[..|hs| - 1];
      var last := hs[|hs| - 1];
      var ranked := RankByScore(init);
      assert RankByScore(hs) == Insert(last, ranked);
      RankIsStable(init, v);
      RankSorted(init);
      InsertWithScore(last, ranked, v);
      StableStep(hs, init, last, ranked, RankByScore(hs), v);
    }
  }

  lemma StableStep(hs: seq<Hit>, init: seq<Hit>, last: Hit, ranked: seq<Hit>, out: seq<Hit>, v: nat)
    requires |hs| > 0 && init == hs[..|hs| - 1] && last == hs[|hs| - 1]
    requires WithScore(ranked, v) == WithScore(init, v)
    requires WithScore(out, v) == if last.score == v then WithScore(ranked, v) + [last] else WithScore(ranked, v)
    ensures WithScore(out, v) == WithScore(hs, v)
  {
    assert hs == init + [last];
    WithScoreLast(init, last, v);
  }

  /** Appending a hit extends the hits of its score and no other. */
  lemma WithScoreLast(init: seq<Hit>, last: Hit, v: nat)
    ensures WithScore(init + [last], v) == if last.score == v then WithScore(init, v) + [last] else WithScore(init, v)
  {
    WithScoreAppend(init, [last], v);
    assert [last][1..] == [];
  }

  /** A prefix of a ranking is sorted and made of the ranked hits. */
  lemma RankedPrefix(ranked: seq<Hit>, hs: seq<Hit>, n: nat)
    requires SortedDesc(ranked) && multiset(ranked) == multiset(hs) && n <= |ranked|
    ensures SortedDesc(ranked[..n])
    ensures forall k :: 0 <= k < n ==> ranked[..n][k] in hs
  {
    forall k | 0 <= k < n ensures ranked[..n][k] in hs {
      assert ranked[k] in multiset(ranked);
    }
  }

  // ----- the search -----

  /**
   * `mock_web_search`. `listing` is the directory's markdown files in ascending path order,
   * or None when the directory does not exist. A query without tokens, or a missing
   * directory, yields no hits; otherwise the files with a positive score, best first, at
   * most `topK` of them (Python's `[:top_k]`, so a negative bound drops from the end).
   */
  function Search(query: Option<string>, topK: int, listing: Option<seq<Doc>>): (r: seq<Hit>)
    ensures |Tokenize(query)| == 0 || listing.None? ==> r == []
    ensures topK >= 0 ==> |r| <= topK
    ensures SortedDesc(r)
    ensures listing.Some? ==> forall k :: 0 <= k < |r| ==> r[k] in Candidates(Tokenize(query), listing.value)
    ensures listing.Some? ==>
      var ranked := RankByScore(Candidates(Tokenize(query), listing.value));
      |r| <= |ranked| && r == ranked[..|r|]
    ensures |Tokenize(query)| > 0 && listing.Some? ==>
      |r| == SliceIndex(topK, |Relevant(Tokenize(query), listing.value)|)
  {
    var tokens := Tokenize(query);
    if |tokens| == 0 then []
    else
      match listing
      case None => []
      case Some(docs) =>
        var cands := Candidates(tokens, docs);
        var ranked := RankByScore(cands);
        RankSorted(cands);
        RankPermutes(cands);
        var n := SliceIndex(topK, |ranked|);
        RankedPrefix(ranked, cands, n);
        ranked[..n]
  }

  /** A hit left out of the answer scores no more than any hit in it. */
  lemma SearchKeepsBest(query: Option<string>, topK: int, docs: seq<Doc>)
    ensures var r := Search(query, topK, Some(docs));
      var ranked := RankByScore(Candidates(Tokenize(query), docs));
      |Tokenize(query)| > 0 ==> forall i, j :: 0 <= i < |r| <= j < |ranked| ==> r[i].score >= ranked[j].score
  {
    RankSorted(Candidates(Tokenize(query), docs));
  }
}
