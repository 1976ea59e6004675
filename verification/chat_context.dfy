/**
  server/ui/app_chainlit.py: the chat client's local conversation context. The client
  keeps the turns of the current session, takes the most recent ones, compresses them
  when they are long, caps the result, and sends it in front of the new user message.
  It also defuses code fences in text it renders as markdown.
*/
module ChatContext {
  import opened Wrappers
  import opened Strings

  /** One turn of the conversation. */
  datatype Msg = Msg(role: string, content: string)

  /** The knobs of `ChatSession` that shape the context. */
  datatype ChatSettings = ChatSettings(
    maxTurnsInContext: int,
    maxContextChars: int,
    compressThresholdChars: int,
    includeAssistant: bool)

  /** The values the module-level session is created with. */
  const SessionSettings: ChatSettings := ChatSettings(10, 3500, 2000, true)

  // ----- recent turns -----

  /** The turns whose role is "user", in order. */
  function UserTurns(h: seq<Msg>): (r: seq<Msg>)
    ensures |r| <= |h|
    ensures forall k :: 0 <= k < |r| ==> r[k].role == "user"
    ensures forall m :: m in r <==> m in h && m.role == "user"
  {
    if |h| == 0 then []
    else
      assert forall m :: m in h <==> m == h[0] || m in h[1..];
      (if h[0].role == "user" then [h[0]] else []) + UserTurns(h[1..])
  }

  /** The user turns of two histories one after the other are those of the first, then those of the second. */
  lemma {:induction false} UserTurnsAppend(a: seq<Msg>, b: seq<Msg>)
    ensures UserTurns(a + b) == UserTurns(a) + UserTurns(b)
    decreases |a|
  {
    if |a| == 0 {
      assert a + b == b;
    } else {
      assert (a + b)[0] == a[0] && (a + b)[1..] == a[1..] + b;
      UserTurnsAppend(a[1..], b);
      var x := if a[0].role == "user" then [a[0]] else [];
      assert x + (UserTurns(a[1..]) + UserTurns(b)) == (x + UserTurns(a[1..])) + UserTurns(b);
    }
  }

  /** One turn is kept exactly when it is the user's. */
  lemma UserTurnsOne(m: Msg)
    ensures UserTurns([m]) == if m.role == "user" then [m] else []
  {
    assert [m][1..] == [];
  }

  /**
   * `_take_recent`: the last `maxTurns` turns (only the user's when assistant turns are
   * excluded), as Python's `[-max_turns:]` selects them: a bound of zero keeps everything
   * and a negative bound drops that many turns from the front.
   */
  function TakeRecent(h: seq<Msg>, maxTurns: int, includeAssistant: bool): (r: seq<Msg>)
    ensures |h| == 0 ==> r == []
    ensures var pool := if includeAssistant then h else UserTurns(h);
      && |r| <= |pool| && r == pool[|pool| - |r|..]
      && (maxTurns >= 1 ==> |r| == if maxTurns < |pool| then maxTurns else |pool|)
      && (maxTurns == 0 ==> r == pool)
      && (maxTurns < 0 ==> |r| == if |pool| + maxTurns < 0 then 0 else |pool| + maxTurns)
  {
    if |h| == 0 then []
    else if includeAssistant then SliceFrom(h, -maxTurns)
    else SliceFrom(UserTurns(h), -maxTurns)
  }

  /** Without assistant turns, every recent turn is the user's. */
  lemma RecentUserTurnsOnly(h: seq<Msg>, maxTurns: int)
    ensures forall k :: 0 <= k < |TakeRecent(h, maxTurns, false)| ==> TakeRecent(h, maxTurns, false)[k].role == "user"
  {
    UserSuffix(UserTurns(h), TakeRecent(h, maxTurns, false));
  }

  lemma UserSuffix(pool: seq<Msg>, r: seq<Msg>)
    requires |r| <= |pool| && r == pool[|pool| - |r|..]
    requires forall k :: 0 <= k < |pool| ==> pool[k].role == "user"
    ensures forall k :: 0 <= k < |r| ==> r[k].role == "user"
  {
    forall k | 0 <= k < |r| ensures r[k].role == "user" {
      assert r[k] == pool[|pool| - |r| + k];
    }
  }

  // ----- line compression -----

  /** `" ".join(line.split())`: the words of the line, one space apart. */
  function Collapse(line: string): string {
    Join(" ", Words(line))
  }

  /** A whitespace-collapsed line: its only whitespace is single spaces between non-spaces. */
  predicate Collapsed(s: string) {
    forall i :: 0 <= i < |s| ==> IsSpace(s[i]) ==> s[i] == ' ' && 0 < i < |s| - 1 && !IsSpace(s[i + 1])
  }

  lemma {:induction false} JoinWordsCollapsed(ws: seq<string>)
    requires forall k :: 0 <= k < |ws| ==> IsWord(ws[k])
    ensures Collapsed(Join(" ", ws))
    ensures |ws| > 0 ==> |ws[0]| > 0 && |Join(" ", ws)| > 0 && Join(" ", ws)[0] == ws[0][0]
    decreases |ws|
  {
    if |ws| == 1 {
    } else if |ws| > 1 {
      var rest := Join(" ", ws[1..]);
      JoinWordsCollapsed(ws[1..]);
      var j := ws[0] + " " + rest;
      assert Join(" ", ws) == j;
      forall i | 0 <= i < |j| ensures IsSpace(j[i]) ==> j[i] == ' ' && 0 < i < |j| - 1 && !IsSpace(j[i + 1]) {
        if i < |ws[0]| {
          assert j[i] == ws[0][i];
          assert !IsSpace(ws[0][i]);
        } else if i == |ws[0]| {
          assert IsWord(ws[1]);
          assert j[i + 1] == rest[0] == ws[1][0];
        } else {
          var t := i - |ws[0]| - 1;
          assert j[i] == rest[t];
          assert IsSpace(rest[t]) ==> rest[t] == ' ' && 0 < t < |rest| - 1 && !IsSpace(rest[t + 1]);
          if t + 1 < |rest| {
            assert j[i + 1] == rest[t + 1];
          }
        }
      }
    }
  }

  /** The longest line `_compress_lines` keeps whole, and the ellipsis it appends when it cuts. */
  const MaxLineLen: nat := 220
  const Ellipsis: char := '…'

  /** Cut a line longer than 220 characters to 220, drop trailing whitespace, append the ellipsis. */
  function Shorten(core: string): string {
    if |core| > MaxLineLen then RStrip(core[..MaxLineLen]) + [Ellipsis] else core
  }

  /** A collapsed line stays collapsed when shortened, and is at most 221 characters long. */
  lemma ShortenCollapsed(core: string)
    requires Collapsed(core)
    ensures Collapsed(Shorten(core)) && |Shorten(core)| <= MaxLineLen + 1
  {
    if |core| > MaxLineLen {
      var p := RStrip(core[..MaxLineLen]);
      var r := p + [Ellipsis];
      forall i | 0 <= i < |r| ensures IsSpace(r[i]) ==> r[i] == ' ' && 0 < i < |r| - 1 && !IsSpace(r[i + 1]) {
        if i < |p| {
          assert r[i] == core[i];
          if i + 1 < |p| {
            assert r[i + 1] == core[i + 1];
          }
        }
      }
    }
  }

  /** The words `_compress_lines` treats as filler. */
  const Fillers: set<string> := {
    "okay", "ok", "thanks", "thank you", "cool", "great", "sure", "sounds good",
    "got it", "awesome", "nice", "yeah", "yep", "uh", "um"}

  /** A line that is, or ends in a sentence that is, nothing but a filler, ignoring case. */
  predicate IsFillerLine(line: string) {
    var low := Lower(Collapse(line));
    exists f :: f in Fillers && (low == f || EndsWith(low, ". " + f))
  }

  /** What `_compress_lines` keeps of the lines `ls`: the non-filler ones, collapsed and shortened, in order. */
  function Processed(ls: seq<string>): (r: seq<string>)
    ensures |r| <= |ls|
  {
    if |ls| == 0 then []
    else (if IsFillerLine(ls[0]) then [] else [Shorten(Collapse(ls[0]))]) + Processed(ls[1..])
  }

  /** Every kept line is whitespace-collapsed and at most 221 characters long. */
  lemma {:induction false} ProcessedLinesShort(ls: seq<string>)
    ensures forall k :: 0 <= k < |Processed(ls)| ==> Collapsed(Processed(ls)[k]) && |Processed(ls)[k]| <= MaxLineLen + 1
    decreases |ls|
  {
    if |ls| > 0 {
      ProcessedLinesShort(ls[1..]);
      if !IsFillerLine(ls[0]) {
        JoinWordsCollapsed(Words(ls[0]));
        ShortenCollapsed(Collapse(ls[0]));
        var r := Processed(ls);
        assert r == [Shorten(Collapse(ls[0]))] + Processed(ls[1..]);
        forall k | 0 <= k < |r| ensures Collapsed(r[k]) && |r[k]| <= MaxLineLen + 1 {
          if k > 0 {
            assert r[k] == Processed(ls[1..])[k - 1];
          }
        }
      }
    }
  }

  /** Processing one more line from the front adds its kept form in front. */
  lemma ProcessedStep(lines: seq<string>, j: nat)
    requires 0 < j <= |lines|
    ensures Processed(lines[j - 1..]) == (if IsFillerLine(lines[j - 1]) then [] else [Shorten(Collapse(lines[j - 1]))]) + Processed(lines[j..])
  {
    assert lines[j - 1..][0] == lines[j - 1];
    assert lines[j - 1..][1..] == lines[j..];
  }

  /** The loop test of `_compress_lines`: what is kept so far has reached the target. */
  predicate Reached(kept: seq<string>, target: int) {
    |kept| > 0 && |Join("\n", kept)| >= target
  }

  /**
   * The loop of `_compress_lines`, walking from line `j - 1` towards the first; `kept`
   * holds what was kept of `lines[j..]`, in their order, and has not reached the target.
   */
  function CompressLoop(lines: seq<string>, target: int, j: nat, kept: seq<string>): (r: seq<string>)
    requires j <= |lines| && kept == Processed(lines[j..]) && !Reached(kept, target)
    decreases j
  {
    if j == 0 then kept
    else
      ProcessedStep(lines, j);
      var line := lines[j - 1];
      if IsFillerLine(line) then CompressLoop(lines, target, j - 1, kept)
      else
        var more := [Shorten(Collapse(line))] + kept;
        if |Join("\n", more)| >= target then more else CompressLoop(lines, target, j - 1, more)
  }

  /** `_compress_lines`: the kept lines, oldest first, joined by line breaks. */
  function CompressLines(lines: seq<string>, target: int): string {
    assert lines[|lines|..] == [];
    Join("\n", CompressLoop(lines, target, |lines|, []))
  }

  /**
   * Where `_compress_lines` stops, stated without the loop: the latest start `s < j` from
   * which what is kept reaches the target, or 0 when there is none.
   */
  function StopIndex(lines: seq<string>, target: int, j: nat): (s: nat)
    requires j <= |lines|
    ensures s <= j && (j > 0 ==> s < j)
    ensures 0 < s ==> Reached(Processed(lines[s..]), target)
    ensures forall t :: s < t < j ==> !Reached(Processed(lines[t..]), target)
    decreases j
  {
    if j == 0 then 0
    else if Reached(Processed(lines[j - 1..]), target) then j - 1
    else
      var s := StopIndex(lines, target, j - 1);
      assert forall t :: s < t < j ==> !Reached(Processed(lines[t..]), target) by {
        forall t | s < t < j ensures !Reached(Processed(lines[t..]), target) {
          if t < j - 1 {
          }
        }
      }
      s
  }

  /**
   * The loop keeps exactly what the lines from the stop index on give: the most recent
   * non-filler lines, in order, back to the first point where they reach the target.
   */
  lemma {:induction false} CompressLoopKeepsSuffix(lines: seq<string>, target: int, j: nat, kept: seq<string>)
    requires j <= |lines| && kept == Processed(lines[j..]) && !Reached(kept, target)
    ensures CompressLoop(lines, target, j, kept) == Processed(lines[StopIndex(lines, target, j)..])
    decreases j
  {
    if j > 0 {
      ProcessedStep(lines, j);
      var line := lines[j - 1];
      if IsFillerLine(line) {
        CompressLoopKeepsSuffix(lines, target, j - 1, kept);
      } else {
        var more := [Shorten(Collapse(line))] + kept;
        if |Join("\n", more)| < target {
          CompressLoopKeepsSuffix(lines, target, j - 1, more);
        }
      }
    }
  }

  /**
   * `_compress_lines` returns the kept forms of the lines from the stop index on, joined;
   * each is collapsed and at most 221 characters long; unless the walk went through every
   * line, the result has reached the target, and no later start would have.
   */
  lemma CompressLinesSpec(lines: seq<string>, target: int)
    ensures var s := StopIndex(lines, target, |lines|);
      && CompressLines(lines, target) == Join("\n", Processed(lines[s..]))
      && (0 < s ==> |CompressLines(lines, target)| >= target)
      && (forall t :: s < t < |lines| ==> !Reached(Processed(lines[t..]), target))
      && (forall k :: 0 <= k < |Processed(lines[s..])| ==>
            Collapsed(Processed(lines[s..])[k]) && |Processed(lines[s..])[k]| <= MaxLineLen + 1)
  {
    assert lines[|lines|..] == [];
    CompressLoopKeepsSuffix(lines, target, |lines|, []);
    ProcessedLinesShort(lines[StopIndex(lines, target, |lines|)..]);
  }

  // ----- the context block -----

  /** The label a turn gets in the context: "User" for the user's turns, "Assistant" for all others. */
  function RoleLabel(role: string): string {
    if role == "user" then "User" else "Assistant"
  }

  function ContextLine(m: Msg): string {
    RoleLabel(m.role) + ": " + Strip(m.content)
  }

  function ContextLines(ms: seq<Msg>): (ls: seq<string>)
    ensures |ls| == |ms|
    ensures forall k :: 0 <= k < |ms| ==> ls[k] == ContextLine(ms[k])
  {
    seq(|ms|, k requires 0 <= k < |ms| => ContextLine(ms[k]))
  }

  const ContextHeader: string :=
    "### Conversation Context (local, current session only) ###\nThe following lines summarize the most recent turns.\n"
  const ContextFooter: string := "\n### End Context ###\n"

  /** The context text before the hard cap: the recent lines, compressed when over the threshold. */
  function Uncapped(h: seq<Msg>, c: ChatSettings): string {
    var lines := ContextLines(TakeRecent(h, c.maxTurnsInContext, c.includeAssistant));
    var raw := Strip(Join("\n", lines));
    if |raw| <= c.compressThresholdChars then raw else CompressLines(lines, c.compressThresholdChars)
  }

  /** The hard cap: a text longer than `maxChars` keeps Python's `[-max_chars:]` of it. */
  function Cap(text: string, maxChars: int): (r: string)
    ensures EndsWith(text, r)
    ensures maxChars > 0 ==> |r| <= maxChars
    ensures |text| <= maxChars ==> r == text
    ensures |text| > maxChars > 0 ==> |r| == maxChars
    ensures maxChars == 0 ==> r == text
    ensures maxChars < 0 ==> |r| == if |text| + maxChars < 0 then 0 else |text| + maxChars
  {
    if |text| > maxChars then SliceFrom(text, -maxChars) else text
  }

  /**
   * `_build_context_block`: nothing for an empty history or an empty capped text; otherwise
   * the capped text between the header and the end marker.
   */
  function BuildContextBlock(h: seq<Msg>, c: ChatSettings): (r: string)
    ensures |h| == 0 ==> r == ""
    ensures var body := Cap(Uncapped(h, c), c.maxContextChars);
      && (r == "" <==> body == "")
      && (r != "" ==> r == ContextHeader + body + ContextFooter)
  {
    var body := Cap(Uncapped(h, c), c.maxContextChars);
    if |h| == 0 then
      assert TakeRecent(h, c.maxTurnsInContext, c.includeAssistant) == [];
      assert Strip("") == "" by { StripSurrounded("", "", ""); }
      ""
    else if body == "" then ""
    else ContextHeader + body + ContextFooter
  }

  /** A non-empty context block is a positive-capped suffix of the uncapped text, framed. */
  lemma ContextBlockFramed(h: seq<Msg>, c: ChatSettings)
    requires BuildContextBlock(h, c) != ""
    ensures var r := BuildContextBlock(h, c); var body := Cap(Uncapped(h, c), c.maxContextChars);
      && StartsWith(r, ContextHeader) && EndsWith(r, ContextFooter)
      && OccursAt(body, r, |ContextHeader|)
      && EndsWith(Uncapped(h, c), body)
      && (c.maxContextChars > 0 ==> |body| <= c.maxContextChars)
  {
    Framed(ContextHeader, Cap(Uncapped(h, c), c.maxContextChars), ContextFooter);
  }

  /** A block built with the session's settings carries at most 3500 characters of context. */
  lemma SessionBlockBounded(h: seq<Msg>)
    ensures |BuildContextBlock(h, SessionSettings)| <= |ContextHeader| + SessionSettings.maxContextChars + |ContextFooter|
  {
  }

  /** `_combine_context_and_user`: the context block, then the new message as a "User:" line. */
  function CombineContextAndUser(context: string, userText: string): (r: string)
    ensures context == "" ==> r == userText
    ensures context != "" ==> StartsWith(r, context) && EndsWith(r, "\nUser: " + userText)
    ensures context != "" ==> |r| == |context| + 7 + |userText|
  {
    if context != "" then
      Framed(context, "\nUser: ", userText);
      Framed("", context, "\nUser: " + userText);
      assert "" + context + ("\nUser: " + userText) == context + "\nUser: " + userText;
      context + "\nUser: " + userText
    else userText
  }

  // ----- markdown sanitizing -----

  const Fence: string := "```"
  /** Three modifier-letter apostrophes, which render like backticks but open no code block. */
  const FenceStandIn: string := "ʼʼʼ"

  /**
   * `_md_inline`: unescape HTML entities (`unescape` stands for `html.unescape`), turn every
   * code fence into its stand-in, strip surrounding whitespace.
   */
  function MdInline(unescape: string -> string, s: string): string {
    Strip(Replace(unescape(s), Fence, FenceStandIn))
  }

  /** Replacing the fences leaves none, and a result that starts with backticks got them from the input. */
  lemma {:induction false} ReplaceFenceLeavesNone(s: string)
    ensures var r := Replace(s, Fence, FenceStandIn);
      && !IsInfix(Fence, r)
      && (|r| > 0 && r[0] == '`' ==> |s| > 0 && s[0] == '`')
      && (|r| > 1 && r[0] == '`' && r[1] == '`' ==> |s| > 1 && s[0] == '`' && s[1] == '`')
    decreases |s|
  {
    var r := Replace(s, Fence, FenceStandIn);
    if |s| < 3 {
      assert r == s;
    } else if s[..3] == Fence {
      ReplaceFenceLeavesNone(s[3..]);
      var rest := Replace(s[3..], Fence, FenceStandIn);
      assert r == FenceStandIn + rest;
      NoFenceAfterStandIn(rest);
    } else {
      ReplaceFenceLeavesNone(s[1..]);
      var rest := Replace(s[1..], Fence, FenceStandIn);
      assert r == [s[0]] + rest;
      NoFenceAfterChar(s, rest);
    }
  }

  lemma NoFenceAfterStandIn(rest: string)
    requires !IsInfix(Fence, rest)
    ensures !IsInfix(Fence, FenceStandIn + rest)
  {
    var r := FenceStandIn + rest;
    forall i | 0 <= i <= |r| - 3 ensures !OccursAt(Fence, r, i) {
      if i < 3 {
        assert r[i] != '`';
      } else {
        assert r[i..i + 3] == rest[i - 3..i];
        assert !OccursAt(Fence, rest, i - 3);
      }
    }
  }

  lemma NoFenceAfterChar(s: string, rest: string)
    requires |s| >= 3 && s[..3] != Fence
    requires !IsInfix(Fence, rest)
    requires |rest| > 0 && rest[0] == '`' ==> s[1] == '`'
    requires |rest| > 1 && rest[0] == '`' && rest[1] == '`' ==> s[1] == '`' && s[2] == '`'
    ensures !IsInfix(Fence, [s[0]] + rest)
  {
    var r := [s[0]] + rest;
    forall i | 0 <= i <= |r| - 3 ensures !OccursAt(Fence, r, i) {
      if i == 0 {
        if |rest| > 1 && rest[0] == '`' && rest[1] == '`' {
          assert r[..3] == s[..3];
        } else {
          assert r[1] != '`' || r[2] != '`';
        }
      } else {
        assert r[i..i + 3] == rest[i - 1..i + 2];
        assert !OccursAt(Fence, rest, i - 1);
      }
    }
  }

  /** An occurrence inside a slice is an occurrence in the whole, shifted by where the slice starts. */
  lemma OccursInSlice(sub: string, s: string, a: nat, b: nat, i: nat)
    requires a <= b <= |s| && OccursAt(sub, s[a..b], i)
    ensures OccursAt(sub, s, a + i)
  {
    var t := s[a..b];
    assert i + |sub| <= |t|;
    var x := t[i..i + |sub|];
    var y := s[a + i..a + i + |sub|];
    assert forall k :: 0 <= k < |sub| ==> x[k] == y[k];
    assert x == y;
  }

  /** An occurrence inside a slice is an occurrence in the whole. */
  lemma InfixOfSlice(sub: string, s: string, a: nat, b: nat)
    requires a <= b <= |s|
    ensures IsInfix(sub, s[a..b]) ==> IsInfix(sub, s)
  {
    if IsInfix(sub, s[a..b]) {
      var i :| 0 <= i <= |s[a..b]| - |sub| && OccursAt(sub, s[a..b], i);
      OccursInSlice(sub, s, a, b, i);
    }
  }

  /** Stripping cuts a slice, so it cannot create an occurrence. */
  lemma StripKeepsAbsent(sub: string, s: string)
    ensures IsInfix(sub, Strip(s)) ==> IsInfix(sub, s)
  {
    var a := StripIsSlice(s);
    InfixOfSlice(sub, s, a, a + |Strip(s)|);
  }

  /** Whatever the unescaping produces, the sanitized text contains no code fence. */
  lemma MdInlineHasNoFence(unescape: string -> string, s: string)
    ensures !IsInfix(Fence, MdInline(unescape, s))
  {
    ReplaceFenceLeavesNone(unescape(s));
    StripKeepsAbsent(Fence, Replace(unescape(s), Fence, FenceStandIn));
  }

  /** Replacing a text that does not occur changes nothing. */
  lemma {:induction false} ReplaceAbsent(s: string, pat: string, rep: string)
    requires |pat| > 0 && !IsInfix(pat, s)
    ensures Replace(s, pat, rep) == s
    decreases |s|
  {
    if |s| >= |pat| {
      assert !OccursAt(pat, s, 0);
      if !IsInfix(pat, s[1..]) {
        ReplaceAbsent(s[1..], pat, rep);
      } else {
        InfixCases(pat, s);
      }
    }
  }

  /** A fence-free text with visible ends comes through the sanitizer as the unescaping leaves it. */
  lemma MdInlineKeepsPlainText(unescape: string -> string, s: string)
    requires !IsInfix(Fence, unescape(s))
    requires |unescape(s)| > 0 ==> !IsSpace(unescape(s)[0]) && !IsSpace(unescape(s)[|unescape(s)| - 1])
    ensures MdInline(unescape, s) == unescape(s)
  {
    ReplaceAbsent(unescape(s), Fence, FenceStandIn);
    StripSurrounded("", unescape(s), "");
    assert "" + unescape(s) + "" == unescape(s);
  }
}
