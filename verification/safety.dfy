/**
  utils/safety.py: the dangerous-command predicate behind the safety gate.

  The five regular expressions of `DANGEROUS_PATTERNS` use only literal
  characters, `\s+`, `\s*` and `\b`, so they are written here in a small
  pattern language with two meanings: `Spans`, which says which characters each
  element of a pattern covers, and `MatchAt`, a backtracking matcher like the
  one `re.search` runs. The two are proved to agree.
*/
module Safety {
  import opened Wrappers
  import opened Strings

  /** One element of a pattern: a literal character, `\s*` or `\s+`, or `\b`. */
  datatype Elem = Lit(ch: char) | Spaces(atLeastOne: bool) | WordBoundary

  type Pattern = seq<Elem>

  /** `\brm\s+-rf\b`: recursive force-delete. */
  const RmRf: Pattern :=
    [WordBoundary, Lit('r'), Lit('m'), Spaces(true), Lit('-'), Lit('r'), Lit('f'), WordBoundary]

  /** `\bwipefs\b`: the filesystem-signature wiper. */
  const Wipefs: Pattern :=
    [WordBoundary, Lit('w'), Lit('i'), Lit('p'), Lit('e'), Lit('f'), Lit('s'), WordBoundary]

  /** `\bmkfs\.`: a filesystem-format command such as `mkfs.ext4`. */
  const Mkfs: Pattern :=
    [WordBoundary, Lit('m'), Lit('k'), Lit('f'), Lit('s'), Lit('.')]

  /** `\bdd\s+if=`: a raw block copy. */
  const Dd: Pattern :=
    [WordBoundary, Lit('d'), Lit('d'), Spaces(true), Lit('i'), Lit('f'), Lit('=')]

  /** `:\(\)\s*\{\s*:\s*\|\s*:\s*;\s*\}\s*;\s*:`: the fork bomb, as written (no `&`). */
  const ForkBomb: Pattern :=
    [ Lit(':'), Lit('('), Lit(')'), Spaces(false), Lit('{'), Spaces(false), Lit(':'),
      Spaces(false), Lit('|'), Spaces(false), Lit(':'), Spaces(false), Lit(';'),
      Spaces(false), Lit('}'), Spaces(false), Lit(';'), Spaces(false), Lit(':') ]

  /** `DANGEROUS_PATTERNS`, in the source's order. */
  const DangerousPatterns: seq<Pattern> := [RmRf, Wipefs, Mkfs, Dd, ForkBomb]

  /** Regex `\b` at position `i`: exactly one of the neighbouring characters is a word character. */
  predicate AtBoundary(s: string, i: int)
    requires 0 <= i <= |s|
  {
    (i > 0 && IsWordChar(s[i - 1])) != (i < |s| && IsWordChar(s[i]))
  }

  // ---------------------------------------------------------------------------
  // Meaning of a pattern
  // ---------------------------------------------------------------------------

  /** Element `e` covers exactly the characters `s[i..j]`. */
  ghost predicate ElemSpans(e: Elem, s: string, i: int, j: int) {
    && 0 <= i <= j <= |s|
    && match e
       case Lit(ch) => j == i + 1 && s[i] == ch
       case Spaces(one) => (one ==> i < j) && AllSpace(s[i..j])
       case WordBoundary => j == i && AtBoundary(s, i)
  }

  /**
    Pattern `p` matches `s` starting at `i`, its k-th element ending at `ends[k]`
    (and starting where the previous one ended).
  */
  ghost predicate Spans(p: Pattern, s: string, i: int, ends: seq<int>)
    decreases |p|
  {
    && |ends| == |p|
    && 0 <= i <= |s|
    && (|p| > 0 ==> ElemSpans(p[0], s, i, ends[0]) && Spans(p[1..], s, ends[0], ends[1..]))
  }

  /** `re.search(p, s)` finds a match: some position and some split of the text fit the pattern. */
  ghost predicate Occurs(p: Pattern, s: string) {
    exists i, ends :: Spans(p, s, i, ends)
  }

  // ---------------------------------------------------------------------------
  // Matching
  // ---------------------------------------------------------------------------

  /** Backtracking match of the elements `p[k..]` against `s`, anchored at `i`. */
  predicate MatchAt(p: Pattern, k: nat, s: string, i: nat)
    requires k <= |p| && i <= |s|
    decreases |s| - i, |p| - k, 1
  {
    if k == |p| then true
    else match p[k]
      case Lit(ch) => i < |s| && s[i] == ch && MatchAt(p, k + 1, s, i + 1)
      case WordBoundary => AtBoundary(s, i) && MatchAt(p, k + 1, s, i)
      case Spaces(one) =>
        if one then i < |s| && IsSpace(s[i]) && MatchSpacesThen(p, k + 1, s, i + 1)
        else MatchSpacesThen(p, k + 1, s, i)
  }

  /** `\s*` followed by the elements `p[k..]`, greedy with backtracking. */
  predicate MatchSpacesThen(p: Pattern, k: nat, s: string, i: nat)
    requires k <= |p| && i <= |s|
    decreases |s| - i, |p| - k + 1, 0
  {
    (i < |s| && IsSpace(s[i]) && MatchSpacesThen(p, k, s, i + 1)) || MatchAt(p, k, s, i)
  }

  /** `re.search`: try every start position from `i` on. */
  predicate SearchFrom(p: Pattern, s: string, i: nat)
    requires i <= |s|
    decreases |s| - i
  {
    MatchAt(p, 0, s, i) || (i < |s| && SearchFrom(p, s, i + 1))
  }

  lemma {:induction false} MatchAtSound(p: Pattern, k: nat, s: string, i: nat) returns (ends: seq<int>)
    requires k <= |p| && i <= |s| && MatchAt(p, k, s, i)
    ensures Spans(p[k..], s, i, ends)
    decreases |s| - i, |p| - k, 1
  {
    if k == |p| {
      ends := [];
    } else {
      assert p[k..][1..] == p[k + 1..];
      match p[k]
      case Lit(ch) =>
        var rest := MatchAtSound(p, k + 1, s, i + 1);
        ends := [i + 1] + rest;
        assert ends[1..] == rest;
      case WordBoundary =>
        var rest := MatchAtSound(p, k + 1, s, i);
        ends := [i] + rest;
        assert ends[1..] == rest;
      case Spaces(one) =>
        var j, rest;
        if one {
          j, rest := MatchSpacesSound(p, k + 1, s, i + 1);
          assert s[i..j][1..] == s[i + 1..j];
        } else {
          j, rest := MatchSpacesSound(p, k + 1, s, i);
        }
        ends := [j] + rest;
        assert ends[1..] == rest;
    }
  }

  lemma {:induction false} MatchSpacesSound(p: Pattern, k: nat, s: string, i: nat) returns (j: int, ends: seq<int>)
    requires k <= |p| && i <= |s| && MatchSpacesThen(p, k, s, i)
    ensures i <= j && Spans(p[k..], s, j, ends) && AllSpace(s[i..j])
    decreases |s| - i, |p| - k + 1, 0
  {
    if i < |s| && IsSpace(s[i]) && MatchSpacesThen(p, k, s, i + 1) {
      j, ends := MatchSpacesSound(p, k, s, i + 1);
      assert s[i..j][1..] == s[i + 1..j];
    } else {
      j := i;
      ends := MatchAtSound(p, k, s, i);
    }
  }

  lemma {:induction false} MatchAtComplete(p: Pattern, k: nat, s: string, i: nat, ends: seq<int>)
    requires k <= |p| && Spans(p[k..], s, i, ends)
    ensures MatchAt(p, k, s, i)
    decreases |s| - i, |p| - k, 1
  {
    if k < |p| {
      assert p[k..][1..] == p[k + 1..];
      match p[k]
      case Lit(_) =>
        MatchAtComplete(p, k + 1, s, ends[0], ends[1..]);
      case WordBoundary =>
        MatchAtComplete(p, k + 1, s, i, ends[1..]);
      case Spaces(one) =>
        if one {
          assert s[i..ends[0]][0] == s[i];
          assert s[i..ends[0]][1..] == s[i + 1..ends[0]];
          MatchSpacesComplete(p, k + 1, s, i + 1, ends[0], ends[1..]);
        } else {
          MatchSpacesComplete(p, k + 1, s, i, ends[0], ends[1..]);
        }
    }
  }

  lemma {:induction false} MatchSpacesComplete(p: Pattern, k: nat, s: string, i: nat, j: int, ends: seq<int>)
    requires k <= |p| && i <= j && Spans(p[k..], s, j, ends) && AllSpace(s[i..j])
    ensures MatchSpacesThen(p, k, s, i)
    decreases |s| - i, |p| - k + 1, 0
  {
    if j == i {
      MatchAtComplete(p, k, s, i, ends);
    } else {
      assert s[i..j][0] == s[i];
      assert s[i..j][1..] == s[i + 1..j];
      MatchSpacesComplete(p, k, s, i + 1, j, ends);
    }
  }

  lemma {:induction false} SearchFromSound(p: Pattern, s: string, i: nat) returns (j: int, ends: seq<int>)
    requires i <= |s| && SearchFrom(p, s, i)
    ensures i <= j && Spans(p, s, j, ends)
    decreases |s| - i
  {
    if MatchAt(p, 0, s, i) {
      j := i;
      ends := MatchAtSound(p, 0, s, i);
      assert p[0..] == p;
    } else {
      j, ends := SearchFromSound(p, s, i + 1);
    }
  }

  lemma {:induction false} SearchFromComplete(p: Pattern, s: string, i: nat, j: int, ends: seq<int>)
    requires i <= j && Spans(p, s, j, ends)
    ensures SearchFrom(p, s, i)
    decreases j - i
  {
    if j == i {
      assert p[0..] == p;
      MatchAtComplete(p, 0, s, i, ends);
    } else {
      SearchFromComplete(p, s, i + 1, j, ends);
    }
  }

  /** Trying every start position finds a match exactly when the pattern fits somewhere. */
  lemma SearchCorrect(p: Pattern, s: string)
    ensures SearchFrom(p, s, 0) <==> Occurs(p, s)
  {
    if SearchFrom(p, s, 0) {
      var j, ends := SearchFromSound(p, s, 0);
    }
    if Occurs(p, s) {
      var j, ends :| Spans(p, s, j, ends);
      SearchFromComplete(p, s, 0, j, ends);
    }
  }

  /** `re.search(p, s) is not None`. */
  function Search(p: Pattern, s: string): (r: bool)
    ensures r <==> Occurs(p, s)
  {
    SearchCorrect(p, s);
    SearchFrom(p, s, 0)
  }

  /** The loop over the patterns from the k-th on: one of them is found in `c`. */
  function AnySearchFrom(ps: seq<Pattern>, c: string, k: nat): (r: bool)
    requires k <= |ps|
    ensures r <==> exists j :: k <= j < |ps| && Occurs(ps[j], c)
    decreases |ps| - k
  {
    if k == |ps| then false else Search(ps[k], c) || AnySearchFrom(ps, c, k + 1)
  }

  /**
    `is_command_dangerous(cmd)`: the command, lowercased (a missing one counts as
    empty), matches at least one of the five patterns somewhere.
  */
  function IsCommandDangerous(cmd: Option<string>): (r: bool)
    ensures r <==> exists k :: 0 <= k < |DangerousPatterns| && Occurs(DangerousPatterns[k], Lower(cmd.GetOr("")))
  {
    AnySearchFrom(DangerousPatterns, Lower(cmd.GetOr("")), 0)
  }

  /** A command and its lowercase form get the same verdict. */
  lemma VerdictIgnoresCase(cmd: string)
    ensures IsCommandDangerous(Some(cmd)) == IsCommandDangerous(Some(Lower(cmd)))
  {
    LowerIdempotent(cmd);
  }

  /** A missing or empty command is never dangerous. */
  lemma EmptyCommandIsSafe()
    ensures !IsCommandDangerous(None) && !IsCommandDangerous(Some(""))
  {
  }
}

module SafetyExamples {
  import opened Wrappers
  import opened Strings
  import opened Safety

  lemma VerdictBySearches(c: string)
    requires Lower(c) == c
    ensures IsCommandDangerous(Some(c)) <==>
      SearchFrom(RmRf, c, 0) || SearchFrom(Wipefs, c, 0) || SearchFrom(Mkfs, c, 0) || SearchFrom(Dd, c, 0) || SearchFrom(ForkBomb, c, 0)
  {
    var ps := DangerousPatterns;
    assert IsCommandDangerous(Some(c)) == AnySearchFrom(ps, c, 0);
    assert AnySearchFrom(ps, c, 0) == (Search(RmRf, c) || AnySearchFrom(ps, c, 1));
    assert AnySearchFrom(ps, c, 1) == (Search(Wipefs, c) || AnySearchFrom(ps, c, 2));
    assert AnySearchFrom(ps, c, 2) == (Search(Mkfs, c) || AnySearchFrom(ps, c, 3));
    assert AnySearchFrom(ps, c, 3) == (Search(Dd, c) || AnySearchFrom(ps, c, 4));
    assert AnySearchFrom(ps, c, 4) == (Search(ForkBomb, c) || AnySearchFrom(ps, c, 5));
  }

  /** Recursive force-delete is flagged. */
  lemma RmRfFlagged()
    ensures IsCommandDangerous(Some("rm -rf /data"))
  {
    var c := "rm -rf /data";
    assert Lower(c) == c;
    assert MatchAt(RmRf, 7, c, 6);
    assert MatchAt(RmRf, 6, c, 5);
    assert MatchAt(RmRf, 5, c, 4);
    assert MatchAt(RmRf, 4, c, 3);
    assert MatchAt(RmRf, 3, c, 2);
    assert MatchAt(RmRf, 2, c, 1);
    assert MatchAt(RmRf, 1, c, 0);
    assert MatchAt(RmRf, 0, c, 0);
    VerdictBySearches(c);
  }

  /** Case does not matter: the command is lowercased first. */
  lemma UpperCaseRmRfFlagged()
    ensures IsCommandDangerous(Some("RM  -RF /data"))
  {
    var c := "rm  -rf /data";
    assert Lower("RM  -RF /data") == c;
    assert MatchAt(RmRf, 7, c, 7);
    assert MatchAt(RmRf, 6, c, 6);
    assert MatchAt(RmRf, 5, c, 5);
    assert MatchAt(RmRf, 4, c, 4);
    assert MatchAt(RmRf, 3, c, 2);
    assert MatchAt(RmRf, 2, c, 1);
    assert MatchAt(RmRf, 1, c, 0);
    assert MatchAt(RmRf, 0, c, 0);
    VerdictBySearches(c);
  }

  lemma RmFrNotFlaggedMissesRmRf()
    ensures !SearchFrom(RmRf, "rm -fr /data", 0)
  {
    var c := "rm -fr /data";
    assert !SearchFrom(RmRf, c, 12) && !SearchFrom(RmRf, c, 9) && !SearchFrom(RmRf, c, 6) && !SearchFrom(RmRf, c, 3) && !SearchFrom(RmRf, c, 0);
  }

  lemma RmFrNotFlaggedMissesDisk()
    ensures !SearchFrom(Wipefs, "rm -fr /data", 0) && !SearchFrom(Mkfs, "rm -fr /data", 0)
  {
    var c := "rm -fr /data";
    assert !SearchFrom(Wipefs, c, 12) && !SearchFrom(Wipefs, c, 9) && !SearchFrom(Wipefs, c, 6) && !SearchFrom(Wipefs, c, 3) && !SearchFrom(Wipefs, c, 0);
    assert !SearchFrom(Mkfs, c, 12) && !SearchFrom(Mkfs, c, 9) && !SearchFrom(Mkfs, c, 6) && !SearchFrom(Mkfs, c, 3) && !SearchFrom(Mkfs, c, 0);
  }

  lemma RmFrNotFlaggedMissesOthers()
    ensures !SearchFrom(Dd, "rm -fr /data", 0) && !SearchFrom(ForkBomb, "rm -fr /data", 0)
  {
    var c := "rm -fr /data";
    assert !SearchFrom(Dd, c, 12) && !SearchFrom(Dd, c, 9) && !SearchFrom(Dd, c, 6) && !SearchFrom(Dd, c, 3) && !SearchFrom(Dd, c, 0);
    assert !SearchFrom(ForkBomb, c, 12) && !SearchFrom(ForkBomb, c, 9) && !SearchFrom(ForkBomb, c, 6) && !SearchFrom(ForkBomb, c, 3) && !SearchFrom(ForkBomb, c, 0);
  }

  /** Only the flag spelling `-rf` is recognised, not `-fr`. */
  lemma RmFrNotFlagged()
    ensures !IsCommandDangerous(Some("rm -fr /data"))
  {
    var c := "rm -fr /data";
    assert Lower(c) == c;
    RmFrNotFlaggedMissesRmRf();
    RmFrNotFlaggedMissesDisk();
    RmFrNotFlaggedMissesOthers();
    VerdictBySearches(c);
  }

  lemma SplitFlagsNotFlaggedMissesRmRf()
    ensures !SearchFrom(RmRf, "rm -r -f /", 0)
  {
    var c := "rm -r -f /";
    assert !SearchFrom(RmRf, c, 9) && !SearchFrom(RmRf, c, 6) && !SearchFrom(RmRf, c, 3) && !SearchFrom(RmRf, c, 0);
  }

  lemma SplitFlagsNotFlaggedMissesDisk()
    ensures !SearchFrom(Wipefs, "rm -r -f /", 0) && !SearchFrom(Mkfs, "rm -r -f /", 0)
  {
    var c := "rm -r -f /";
    assert !SearchFrom(Wipefs, c, 9) && !SearchFrom(Wipefs, c, 6) && !SearchFrom(Wipefs, c, 3) && !SearchFrom(Wipefs, c, 0);
    assert !SearchFrom(Mkfs, c, 9) && !SearchFrom(Mkfs, c, 6) && !SearchFrom(Mkfs, c, 3) && !SearchFrom(Mkfs, c, 0);
  }

  lemma SplitFlagsNotFlaggedMissesOthers()
    ensures !SearchFrom(Dd, "rm -r -f /", 0) && !SearchFrom(ForkBomb, "rm -r -f /", 0)
  {
    var c := "rm -r -f /";
    assert !SearchFrom(Dd, c, 9) && !SearchFrom(Dd, c, 6) && !SearchFrom(Dd, c, 3) && !SearchFrom(Dd, c, 0);
    assert !SearchFrom(ForkBomb, c, 9) && !SearchFrom(ForkBomb, c, 6) && !SearchFrom(ForkBomb, c, 3) && !SearchFrom(ForkBomb, c, 0);
  }

  /** Separate `-r -f` flags are not recognised. */
  lemma SplitFlagsNotFlagged()
    ensures !IsCommandDangerous(Some("rm -r -f /"))
  {
    var c := "rm -r -f /";
    assert Lower(c) == c;
    SplitFlagsNotFlaggedMissesRmRf();
    SplitFlagsNotFlaggedMissesDisk();
    SplitFlagsNotFlaggedMissesOthers();
    VerdictBySearches(c);
  }

  /** `wipefs` as a whole word is flagged. */
  lemma WipefsFlagged()
    ensures IsCommandDangerous(Some("wipefs -a /dev/sdb"))
  {
    var c := "wipefs -a /dev/sdb";
    assert Lower(c) == c;
    assert MatchAt(Wipefs, 7, c, 6);
    assert MatchAt(Wipefs, 6, c, 5);
    assert MatchAt(Wipefs, 5, c, 4);
    assert MatchAt(Wipefs, 4, c, 3);
    assert MatchAt(Wipefs, 3, c, 2);
    assert MatchAt(Wipefs, 2, c, 1);
    assert MatchAt(Wipefs, 1, c, 0);
    assert MatchAt(Wipefs, 0, c, 0);
    VerdictBySearches(c);
  }

  lemma WipefsPartOfWordNotFlaggedMissesWipefs()
    ensures !SearchFrom(Wipefs, "wipefsx -a", 0)
  {
    var c := "wipefsx -a";
    assert !SearchFrom(Wipefs, c, 9) && !SearchFrom(Wipefs, c, 6) && !SearchFrom(Wipefs, c, 3) && !SearchFrom(Wipefs, c, 0);
  }

  /** `wipefs` inside a longer word is not. */
  lemma WipefsPartOfWordNotFlagged()
    ensures !IsCommandDangerous(Some("wipefsx -a"))
  {
    var c := "wipefsx -a";
    assert Lower(c) == c;
    assert !SearchFrom(RmRf, c, 9) && !SearchFrom(RmRf, c, 6) && !SearchFrom(RmRf, c, 3) && !SearchFrom(RmRf, c, 0);
    WipefsPartOfWordNotFlaggedMissesWipefs();
    assert !SearchFrom(Mkfs, c, 9) && !SearchFrom(Mkfs, c, 6) && !SearchFrom(Mkfs, c, 3) && !SearchFrom(Mkfs, c, 0);
    assert !SearchFrom(Dd, c, 9) && !SearchFrom(Dd, c, 6) && !SearchFrom(Dd, c, 3) && !SearchFrom(Dd, c, 0);
    assert !SearchFrom(ForkBomb, c, 9) && !SearchFrom(ForkBomb, c, 6) && !SearchFrom(ForkBomb, c, 3) && !SearchFrom(ForkBomb, c, 0);
    VerdictBySearches(c);
  }

  /** `mkfs.` followed by a filesystem type is flagged. */
  lemma MkfsDotFlagged()
    ensures IsCommandDangerous(Some("mkfs.ext4 /dev/sdb"))
  {
    var c := "mkfs.ext4 /dev/sdb";
    assert Lower(c) == c;
    assert MatchAt(Mkfs, 5, c, 4);
    assert MatchAt(Mkfs, 4, c, 3);
    assert MatchAt(Mkfs, 3, c, 2);
    assert MatchAt(Mkfs, 2, c, 1);
    assert MatchAt(Mkfs, 1, c, 0);
    assert MatchAt(Mkfs, 0, c, 0);
    VerdictBySearches(c);
  }

  lemma BareMkfsNotFlaggedMissesMkfs()
    ensures !SearchFrom(Mkfs, "mkfs /dev/sdb", 0)
  {
    var c := "mkfs /dev/sdb";
    assert !SearchFrom(Mkfs, c, 12) && !SearchFrom(Mkfs, c, 9) && !SearchFrom(Mkfs, c, 6) && !SearchFrom(Mkfs, c, 3) && !SearchFrom(Mkfs, c, 0);
  }

  /** `mkfs` without the dot is not. */
  lemma BareMkfsNotFlagged()
    ensures !IsCommandDangerous(Some("mkfs /dev/sdb"))
  {
    var c := "mkfs /dev/sdb";
    assert Lower(c) == c;
    BareMkfsNotFlaggedMissesRemovals();
    BareMkfsNotFlaggedMissesMkfs();
    BareMkfsNotFlaggedMissesOthers();
    VerdictBySearches(c);
  }

  lemma BareMkfsNotFlaggedMissesRemovals()
    ensures !SearchFrom(RmRf, "mkfs /dev/sdb", 0) && !SearchFrom(Wipefs, "mkfs /dev/sdb", 0)
  {
    var c := "mkfs /dev/sdb";
    assert !SearchFrom(RmRf, c, 12) && !SearchFrom(RmRf, c, 9) && !SearchFrom(RmRf, c, 6) && !SearchFrom(RmRf, c, 3) && !SearchFrom(RmRf, c, 0);
    assert !SearchFrom(Wipefs, c, 12) && !SearchFrom(Wipefs, c, 9) && !SearchFrom(Wipefs, c, 6) && !SearchFrom(Wipefs, c, 3) && !SearchFrom(Wipefs, c, 0);
  }

  lemma BareMkfsNotFlaggedMissesOthers()
    ensures !SearchFrom(Dd, "mkfs /dev/sdb", 0) && !SearchFrom(ForkBomb, "mkfs /dev/sdb", 0)
  {
    var c := "mkfs /dev/sdb";
    assert !SearchFrom(Dd, c, 12) && !SearchFrom(Dd, c, 9) && !SearchFrom(Dd, c, 6) && !SearchFrom(Dd, c, 3) && !SearchFrom(Dd, c, 0);
    assert !SearchFrom(ForkBomb, c, 12) && !SearchFrom(ForkBomb, c, 9) && !SearchFrom(ForkBomb, c, 6) && !SearchFrom(ForkBomb, c, 3) && !SearchFrom(ForkBomb, c, 0);
  }

  /** `dd` with whitespace before `if=` is flagged. */
  lemma DdFlagged()
    ensures IsCommandDangerous(Some("dd if=/dev/zero"))
  {
    var c := "dd if=/dev/zero";
    assert Lower(c) == c;
    assert MatchAt(Dd, 6, c, 5);
    assert MatchAt(Dd, 5, c, 4);
    assert MatchAt(Dd, 4, c, 3);
    assert MatchAt(Dd, 3, c, 2);
    assert MatchAt(Dd, 2, c, 1);
    assert MatchAt(Dd, 1, c, 0);
    assert MatchAt(Dd, 0, c, 0);
    VerdictBySearches(c);
  }

  lemma DdWithoutIfNotFlaggedMissesDd()
    ensures !SearchFrom(Dd, "dd of=/dev/sda", 0)
  {
    var c := "dd of=/dev/sda";
    assert !SearchFrom(Dd, c, 12) && !SearchFrom(Dd, c, 9) && !SearchFrom(Dd, c, 6) && !SearchFrom(Dd, c, 3) && !SearchFrom(Dd, c, 0);
  }

  /** `dd` whose next argument is not `if=` is not. */
  lemma DdWithoutIfNotFlagged()
    ensures !IsCommandDangerous(Some("dd of=/dev/sda"))
  {
    var c := "dd of=/dev/sda";
    assert Lower(c) == c;
    assert !SearchFrom(RmRf, c, 12) && !SearchFrom(RmRf, c, 9) && !SearchFrom(RmRf, c, 6) && !SearchFrom(RmRf, c, 3) && !SearchFrom(RmRf, c, 0);
    assert !SearchFrom(Wipefs, c, 12) && !SearchFrom(Wipefs, c, 9) && !SearchFrom(Wipefs, c, 6) && !SearchFrom(Wipefs, c, 3) && !SearchFrom(Wipefs, c, 0);
    assert !SearchFrom(Mkfs, c, 12) && !SearchFrom(Mkfs, c, 9) && !SearchFrom(Mkfs, c, 6) && !SearchFrom(Mkfs, c, 3) && !SearchFrom(Mkfs, c, 0);
    DdWithoutIfNotFlaggedMissesDd();
    assert !SearchFrom(ForkBomb, c, 12) && !SearchFrom(ForkBomb, c, 9) && !SearchFrom(ForkBomb, c, 6) && !SearchFrom(ForkBomb, c, 3) && !SearchFrom(ForkBomb, c, 0);
    VerdictBySearches(c);
  }

  /** The fork bomb as the pattern spells it, with `;` and no `&`, is flagged. */
  lemma ForkBombWithoutAmpersandFlagged()
    ensures IsCommandDangerous(Some(":(){ :|:;};:"))
  {
    var c := ":(){ :|:;};:";
    assert Lower(c) == c;
    assert MatchAt(ForkBomb, 18, c, 11);
    assert MatchAt(ForkBomb, 17, c, 11);
    assert MatchAt(ForkBomb, 16, c, 10);
    assert MatchAt(ForkBomb, 15, c, 10);
    assert MatchAt(ForkBomb, 14, c, 9);
    assert MatchAt(ForkBomb, 13, c, 9);
    assert MatchAt(ForkBomb, 12, c, 8);
    assert MatchAt(ForkBomb, 11, c, 8);
    assert MatchAt(ForkBomb, 10, c, 7);
    assert MatchAt(ForkBomb, 9, c, 7);
    assert MatchAt(ForkBomb, 8, c, 6);
    assert MatchAt(ForkBomb, 7, c, 6);
    assert MatchAt(ForkBomb, 6, c, 5);
    assert MatchAt(ForkBomb, 5, c, 4);
    assert MatchAt(ForkBomb, 4, c, 3);
    assert MatchAt(ForkBomb, 3, c, 3);
    assert MatchAt(ForkBomb, 2, c, 2);
    assert MatchAt(ForkBomb, 1, c, 1);
    assert MatchAt(ForkBomb, 0, c, 0);
    VerdictBySearches(c);
  }

  lemma ClassicForkBombNotFlaggedMissesForkBomb()
    ensures !SearchFrom(ForkBomb, ":(){ :|:& };:", 0)
  {
    var c := ":(){ :|:& };:";
    assert !MatchAt(ForkBomb, 1, c, 13);
    assert !MatchAt(ForkBomb, 1, c, 8);
    assert !MatchAt(ForkBomb, 1, c, 6);
    assert !MatchAt(ForkBomb, 12, c, 8);
    assert !MatchAt(ForkBomb, 11, c, 8);
    assert !MatchAt(ForkBomb, 10, c, 7);
    assert !MatchAt(ForkBomb, 9, c, 7);
    assert !MatchAt(ForkBomb, 8, c, 6);
    assert !MatchAt(ForkBomb, 7, c, 6);
    assert !MatchAt(ForkBomb, 6, c, 5);
    assert !MatchAt(ForkBomb, 6, c, 4);
    assert !MatchAt(ForkBomb, 5, c, 4);
    assert !MatchAt(ForkBomb, 4, c, 3);
    assert !MatchAt(ForkBomb, 3, c, 3);
    assert !MatchAt(ForkBomb, 2, c, 2);
    assert !MatchAt(ForkBomb, 1, c, 1);
    assert !SearchFrom(ForkBomb, c, 12) && !SearchFrom(ForkBomb, c, 9) && !SearchFrom(ForkBomb, c, 6) && !SearchFrom(ForkBomb, c, 3) && !SearchFrom(ForkBomb, c, 0);
  }

  /** The classic fork bomb `:(){ :|:& };:` is not: the pattern has no `&`. */
  lemma ClassicForkBombNotFlagged()
    ensures !IsCommandDangerous(Some(":(){ :|:& };:"))
  {
    var c := ":(){ :|:& };:";
    assert Lower(c) == c;
    assert !SearchFrom(RmRf, c, 12) && !SearchFrom(RmRf, c, 9) && !SearchFrom(RmRf, c, 6) && !SearchFrom(RmRf, c, 3) && !SearchFrom(RmRf, c, 0);
    assert !SearchFrom(Wipefs, c, 12) && !SearchFrom(Wipefs, c, 9) && !SearchFrom(Wipefs, c, 6) && !SearchFrom(Wipefs, c, 3) && !SearchFrom(Wipefs, c, 0);
    assert !SearchFrom(Mkfs, c, 12) && !SearchFrom(Mkfs, c, 9) && !SearchFrom(Mkfs, c, 6) && !SearchFrom(Mkfs, c, 3) && !SearchFrom(Mkfs, c, 0);
    assert !SearchFrom(Dd, c, 12) && !SearchFrom(Dd, c, 9) && !SearchFrom(Dd, c, 6) && !SearchFrom(Dd, c, 3) && !SearchFrom(Dd, c, 0);
    ClassicForkBombNotFlaggedMissesForkBomb();
    VerdictBySearches(c);
  }

  lemma ForkBombWithoutSemicolonNotFlaggedMissesForkBomb()
    ensures !SearchFrom(ForkBomb, ":(){ :|: };:", 0)
  {
    var c := ":(){ :|: };:";
    assert !MatchAt(ForkBomb, 1, c, 12);
    assert !MatchAt(ForkBomb, 1, c, 8);
    assert !MatchAt(ForkBomb, 1, c, 6);
    assert !MatchAt(ForkBomb, 12, c, 9);
    assert !MatchAt(ForkBomb, 12, c, 8);
    assert !MatchAt(ForkBomb, 11, c, 8);
    assert !MatchAt(ForkBomb, 10, c, 7);
    assert !MatchAt(ForkBomb, 9, c, 7);
    assert !MatchAt(ForkBomb, 8, c, 6);
    assert !MatchAt(ForkBomb, 7, c, 6);
    assert !MatchAt(ForkBomb, 6, c, 5);
    assert !MatchAt(ForkBomb, 6, c, 4);
    assert !MatchAt(ForkBomb, 5, c, 4);
    assert !MatchAt(ForkBomb, 4, c, 3);
    assert !MatchAt(ForkBomb, 3, c, 3);
    assert !MatchAt(ForkBomb, 2, c, 2);
    assert !MatchAt(ForkBomb, 1, c, 1);
    assert !SearchFrom(ForkBomb, c, 12) && !SearchFrom(ForkBomb, c, 9) && !SearchFrom(ForkBomb, c, 6) && !SearchFrom(ForkBomb, c, 3) && !SearchFrom(ForkBomb, c, 0);
  }

  /** Nor is the variant with neither `&` nor `;` after the pipe. */
  lemma ForkBombWithoutSemicolonNotFlagged()
    ensures !IsCommandDangerous(Some(":(){ :|: };:"))
  {
    var c := ":(){ :|: };:";
    assert Lower(c) == c;
    assert !SearchFrom(RmRf, c, 12) && !SearchFrom(RmRf, c, 9) && !SearchFrom(RmRf, c, 6) && !SearchFrom(RmRf, c, 3) && !SearchFrom(RmRf, c, 0);
    assert !SearchFrom(Wipefs, c, 12) && !SearchFrom(Wipefs, c, 9) && !SearchFrom(Wipefs, c, 6) && !SearchFrom(Wipefs, c, 3) && !SearchFrom(Wipefs, c, 0);
    assert !SearchFrom(Mkfs, c, 12) && !SearchFrom(Mkfs, c, 9) && !SearchFrom(Mkfs, c, 6) && !SearchFrom(Mkfs, c, 3) && !SearchFrom(Mkfs, c, 0);
    assert !SearchFrom(Dd, c, 12) && !SearchFrom(Dd, c, 9) && !SearchFrom(Dd, c, 6) && !SearchFrom(Dd, c, 3) && !SearchFrom(Dd, c, 0);
    ForkBombWithoutSemicolonNotFlaggedMissesForkBomb();
    VerdictBySearches(c);
  }
}
