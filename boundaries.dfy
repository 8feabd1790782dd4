/**
 * Single rewrites of `normalize_log_line` on lines that sit at the edge of
 * their pattern: where an address or a file location ends, what counts as
 * one, and where the scan resumes after a match.
 */
module Boundaries {
  import opened Text
  import opened Patterns
  import opened Rewrite
  import opened Normalizer

  // ---------------------------------------------------------------------
  // IPv4 addresses (line 23)
  // ---------------------------------------------------------------------

  /** No address starts inside a run of digits: `\b` does not hold there. */
  lemma NoAddressInsideNumber(s: string, k: nat)
    requires 0 < k < |s| && IsDigit(s[k - 1]) && IsDigit(s[k])
    ensures MatchAt(Ipv4, s, k) == None
  {
  }

  /** An address needs seven characters. */
  lemma NoAddressNearEnd(s: string, k: nat)
    requires |s| < k + 7
    ensures MatchAt(Ipv4, s, k) == None
  {
    NoRoomNoMatch(Ipv4, s, k);
  }

  const LongFirstGroup: string := "1234.5.6.7"

  lemma LongFirstGroupAtStart()
    ensures MatchAt(Ipv4, LongFirstGroup, 0) == None
  {
    RunExact(LongFirstGroup, 0, Digit, 4);
  }

  /** A first group of four digits is no address: `1234.5.6.7` is kept. */
  lemma LongFirstGroupKept()
    ensures Substitute(Ipv4, LongFirstGroup, IpToken) == LongFirstGroup
  {
    var s := LongFirstGroup;
    forall k | 0 <= k < |s|
      ensures MatchAt(Ipv4, s, k) == None
    {
      if k == 0 {
        LongFirstGroupAtStart();
      } else if k < 4 {
        NoAddressInsideNumber(s, k);
      } else {
        NoAddressNearEnd(s, k);
      }
    }
    NoMatchPass(Ipv4, s, IpToken);
  }

  const LongLastGroup: string := "1.2.3.4567"

  /** `1.2.3.4567` character by character */
  predicate LongLastGroupShape(s: string) {
    |s| == 10 &&
    IsDigit(s[0]) && IsDigit(s[2]) && IsDigit(s[4]) &&
    s[1] == '.' && s[3] == '.' && s[5] == '.' &&
    forall k :: 6 <= k < 10 ==> IsDigit(s[k])
  }

  lemma LongLastGroupChars(s: string)
    requires s == LongLastGroup
    ensures LongLastGroupShape(s)
  {
  }

  /** Four digits at the end of the line make no group of `\d{1,3}`. */
  lemma FourDigitsAtEnd(s: string, k: nat)
    requires k + 4 == |s| && forall j :: k <= j < |s| ==> IsDigit(s[j])
    ensures DottedGroup(s, k) == None && FinalGroup(s, k) == None
  {
    RunExact(s, k, Digit, 4);
  }

  lemma LongLastGroupNoMatch(s: string)
    requires LongLastGroupShape(s)
    ensures Substitute(Ipv4, s, IpToken) == s
  {
    RunExact(s, 0, Digit, 1);
    RunExact(s, 2, Digit, 1);
    RunExact(s, 4, Digit, 1);
    FourDigitsAtEnd(s, 6);
    forall k | 0 <= k < |s|
      ensures MatchAt(Ipv4, s, k) == None
    {
      if k == 0 || k == 2 {
        assert DottedGroup(s, 4) == Some(6);
      } else if k < 4 {
        assert !CanStart(Ipv4, s[k]);
      } else {
        NoAddressNearEnd(s, k);
      }
    }
    NoMatchPass(Ipv4, s, IpToken);
  }

  /** A last group of four digits is no address either: `1.2.3.4567` is kept. */
  lemma LongLastGroupKept()
    ensures Substitute(Ipv4, LongLastGroup, IpToken) == LongLastGroup
  {
    LongLastGroupChars(LongLastGroup);
    LongLastGroupNoMatch(LongLastGroup);
  }

  /** `\d{1,3}\.` taking one digit and its dot */
  lemma OneDigitDotted(s: string, k: nat)
    requires k + 1 < |s| && IsDigit(s[k]) && s[k + 1] == '.'
    ensures DottedGroup(s, k) == Some(k + 2)
  {
    RunExact(s, k, Digit, 1);
  }

  /** `\d{1,3}\b` taking one digit */
  lemma OneDigitFinal(s: string, k: nat)
    requires k < |s| && IsDigit(s[k]) && (k + 1 < |s| ==> !IsWord(s[k + 1]))
    ensures FinalGroup(s, k) == Some(k + 1)
  {
    RunExact(s, k, Digit, 1);
  }

  /** `s[i..i + 7]` is four one-digit groups: `d.d.d.d`. */
  predicate OneDigitQuadAt(s: string, i: nat) {
    i + 7 <= |s| &&
    IsDigit(s[i]) && IsDigit(s[i + 2]) && IsDigit(s[i + 4]) && IsDigit(s[i + 6]) &&
    s[i + 1] == '.' && s[i + 3] == '.' && s[i + 5] == '.'
  }

  /** Four one-digit groups between non-word characters make an address. */
  lemma OneDigitAddress(s: string, i: nat)
    requires OneDigitQuadAt(s, i)
    requires i > 0 ==> !IsWord(s[i - 1])
    requires i + 7 < |s| ==> !IsWord(s[i + 7])
    ensures MatchAt(Ipv4, s, i) == Some(7)
  {
    OneDigitDotted(s, i);
    OneDigitDotted(s, i + 2);
    OneDigitDotted(s, i + 4);
    OneDigitFinal(s, i + 6);
  }

  const EightGroups: string := "1.2.3.4.5.6.7.8"

  lemma EightGroupsChars(s: string)
    requires s == EightGroups
    ensures |s| == 15 && OneDigitQuadAt(s, 0) && s[7] == '.' && OneDigitQuadAt(s, 8)
    ensures s[..0] == [] && s[7..8] == "." && s[15..] == []
  {
  }

  lemma EightGroupsMatches(s: string)
    requires |s| == 15 && OneDigitQuadAt(s, 0) && s[7] == '.' && OneDigitQuadAt(s, 8)
    ensures Substitute(Ipv4, s, IpToken) == s[..0] + IpToken + s[7..8] + IpToken + s[15..]
  {
    OneDigitAddress(s, 0);
    OneDigitAddress(s, 8);
    assert !CanStart(Ipv4, s[7]);
    TwoMatchPass(Ipv4, s, 0, 7, 8, 7, IpToken);
  }

  /**
   * Eight groups hold two addresses, not four: the scan takes `1.2.3.4`,
   * resumes after it, and takes `5.6.7.8`.
   */
  lemma EightGroupsTwoAddresses(s: string)
    requires s == EightGroups
    ensures Substitute(Ipv4, s, IpToken) == IpToken + "." + IpToken
  {
    EightGroupsChars(s);
    EightGroupsResult(s);
  }

  lemma EightGroupsResult(s: string)
    requires |s| == 15 && OneDigitQuadAt(s, 0) && s[7] == '.' && OneDigitQuadAt(s, 8)
    requires s[..0] == [] && s[7..8] == "." && s[15..] == []
    ensures Substitute(Ipv4, s, IpToken) == IpToken + "." + IpToken
  {
    EightGroupsMatches(s);
  }

  // ---------------------------------------------------------------------
  // File locations (line 26)
  // ---------------------------------------------------------------------

  const KotlinLocation: string := "x.kt:5"

  /** No file location starts at `k` when the path run from there does not end in a listed extension. */
  lemma NoLocationWithoutExtension(s: string, k: nat, n: nat)
    requires k < |s| && s[k] != '(' && Run(s, k, PathChar) == n
    requires !EndsWithExtension(s[k..k + n], SourceExtensions)
    ensures MatchAt(FileLocation, s, k) == None
  {
    assert PathStart(s, k) == k;
    calc {
      MatchAt(FileLocation, s, k);
      FileLocationAt(s, k);
    == { FileLocationAtRun(s, k, k, k + n); }
      LocationFrom(s, k, k, k + n);
      None;
    }
  }

  /** The path runs of `x.kt:5` and the pieces of them that would have to be extensions. */
  lemma KotlinRuns(s: string)
    requires s == KotlinLocation
    ensures |s| == 6 && s[4] == ':' && !IsPathChar(s[4]) && IsPathChar(s[5]) && s[5] != '('
    ensures forall k :: 0 <= k < 4 ==> IsPathChar(s[k]) && s[k] != '('
    ensures s[0..4] == "x.kt" && s[1..4] == ".kt" && s[2..4] == "kt" && s[3..4] == "t"
    ensures s[4..4] == "" && s[5..6] == "5"
  {
  }

  /** Too short for any listed extension with its dot and a character before it. */
  lemma ShortRunNoExtension(run: string, exts: seq<string>)
    requires |run| <= 2
    requires forall i :: 0 <= i < |exts| ==> |exts[i]| >= 1
    ensures !EndsWithExtension(run, exts)
    decreases |exts|
  {
    if |exts| > 0 {
      ShortRunNoExtension(run, exts[1..]);
    }
  }

  lemma DotKtIsNoExtension()
    ensures !EndsWithExtension(".kt", SourceExtensions)
  {
  }

  lemma XDotKtIsNoExtension()
    ensures !EndsWithExtension("x.kt", SourceExtensions)
  {
  }

  lemma KotlinNoLocationAt(s: string, k: nat)
    requires s == KotlinLocation && k < |s|
    ensures MatchAt(FileLocation, s, k) == None
  {
    KotlinRuns(s);
    var n := if k < 4 then 4 - k else if k == 4 then 0 else 1;
    RunExact(s, k, PathChar, n);
    if k == 0 {
      XDotKtIsNoExtension();
    } else if k == 1 {
      DotKtIsNoExtension();
    } else {
      ExtensionsNonEmpty();
      ShortRunNoExtension(s[k..k + n], SourceExtensions);
    }
    NoLocationWithoutExtension(s, k, n);
  }

  /** An extension outside the list is no file location: `x.kt:5` is kept. */
  lemma KotlinLocationKept()
    ensures Substitute(FileLocation, KotlinLocation, FileLocationToken) == KotlinLocation
  {
    var s := KotlinLocation;
    forall k | 0 <= k < |s|
      ensures MatchAt(FileLocation, s, k) == None
    {
      KotlinNoLocationAt(s, k);
    }
    NoMatchPass(FileLocation, s, FileLocationToken);
  }

  const ShortLocation: string := "x.c:1"

  /** A run that ends in `.` and the extension at index `j` of `exts` ends in a listed extension. */
  lemma {:induction false} ExtensionAt(run: string, exts: seq<string>, j: nat)
    requires j < |exts| && |run| >= |exts[j]| + 2
    requires run[|run| - |exts[j]| - 1] == '.' && run[|run| - |exts[j]|..] == exts[j]
    ensures EndsWithExtension(run, exts)
    decreases j
  {
    if j > 0 {
      ExtensionAt(run, exts[1..], j - 1);
    }
  }

  /** The shortest file location, `x.c:1`, is exactly `MinLength(FileLocation)` long. */
  lemma ShortestLocation(s: string)
    requires s == ShortLocation
    ensures MatchAt(FileLocation, s, 0) == Some(MinLength(FileLocation))
  {
    ShortLocationPieces(s);
    ShortLocationMatch(s);
  }

  lemma ShortLocationMatch(s: string)
    requires |s| == 5 && s[0] != '(' && s[1] == '.' && s[2..3] == SourceExtensions[7] && s[3] == ':'
    requires AllPathChars(s[0..3]) && AllDigits(s[4..5])
    ensures MatchAt(FileLocation, s, 0) == Some(5)
  {
    var run := s[0..3];
    assert run[1] == '.' && run[2..] == s[2..3];
    ExtensionAt(run, SourceExtensions, 7);
    assert LocationSpan(s, 0, 3, 5);
    FileLocationComplete(s, 0, 3, 5);
  }

  lemma ShortLocationPieces(s: string)
    requires s == ShortLocation
    ensures |s| == 5 && s[0] != '(' && s[1] == '.' && s[2..3] == SourceExtensions[7] && s[3] == ':'
    ensures AllPathChars(s[0..3]) && AllDigits(s[4..5])
  {
    assert s[0..3] == "x.c" && s[4..5] == "1";
  }

  const JavaFrame: string := "(Class.java:123)"

  lemma JavaFramePieces(s: string)
    requires s == JavaFrame
    ensures |s| == 16 && s[0] == '(' && s[11] == ':' && s[15] == ')'
    ensures forall k :: 1 <= k < 11 ==> IsPathChar(s[k])
    ensures forall k :: 12 <= k < 15 ==> IsDigit(s[k])
    ensures s[1..11] == "Class.java"
    ensures s[..0] == [] && s[16..] == []
  {
  }

  lemma JavaExtension()
    ensures EndsWithExtension("Class.java", SourceExtensions)
  {
    assert "Class.java"[6..] == SourceExtensions[1];
  }

  /** `(Class.java:123)` matches whole, both parentheses included. */
  lemma JavaFrameMatch(s: string)
    requires |s| == 16 && s[0] == '(' && s[11] == ':' && s[15] == ')'
    requires forall k :: 1 <= k < 11 ==> IsPathChar(s[k])
    requires forall k :: 12 <= k < 15 ==> IsDigit(s[k])
    requires EndsWithExtension(s[1..11], SourceExtensions)
    ensures MatchAt(FileLocation, s, 0) == Some(16)
  {
    assert PathStart(s, 0) == 1;
    RunExact(s, 1, PathChar, 10);
    FileLocationAtRun(s, 0, 1, 11);
    RunExact(s, 12, Digit, 3);
    assert LineNumberEnd(s, 11) == Some(15);
  }

  /** A stack-trace location in parentheses becomes the bare token: `(Class.java:123)`. */
  lemma JavaFrameMasked(s: string)
    requires s == JavaFrame
    ensures Substitute(FileLocation, s, FileLocationToken) == FileLocationToken
  {
    JavaFramePieces(s);
    JavaExtension();
    JavaFrameMatch(s);
    OneMatchPass(FileLocation, s, 0, 16, FileLocationToken);
  }
}
