/**
 * Two surprises of `normalize_log_line`, worked through the whole function:
 * the syslog pattern can start inside a word, and normalising twice can
 * give a different line than normalising once.
 */
module Quirks {
  import opened Text
  import opened Patterns
  import opened Rewrite
  import opened Normalizer

  /** The syslog head matches when the eight characters from `k` fit `\w{3}\s\w{3}\s`. */
  lemma SyslogHeadFits(s: string, k: nat)
    requires k + 8 <= |s|
    requires IsWord(s[k]) && IsWord(s[k + 1]) && IsWord(s[k + 2]) && IsSpace(s[k + 3])
    requires IsWord(s[k + 4]) && IsWord(s[k + 5]) && IsWord(s[k + 6]) && IsSpace(s[k + 7])
    ensures FixedAt(s, k, SyslogHead)
  {
    FixedAtSpec(s, k, SyslogHead);
  }

  /** The syslog head fails at `k` when one of its eight characters does not fit. */
  lemma SyslogHeadMisfits(s: string, k: nat, j: nat)
    requires j < 8 && k + j < |s| && !Matches(SyslogHead[j], s[k + j])
    ensures SyslogTimestampAt(s, k) == None
  {
    FixedAtSpec(s, k, SyslogHead);
  }

  /** `\d{2}\s\d{2}:\d{2}:\d{2}` from `k` */
  lemma TwoDigitDayFits(s: string, k: nat)
    requires k + 11 <= |s| && IsSpace(s[k + 2]) && s[k + 5] == ':' && s[k + 8] == ':'
    requires IsDigit(s[k]) && IsDigit(s[k + 1]) && IsDigit(s[k + 3]) && IsDigit(s[k + 4])
    requires IsDigit(s[k + 6]) && IsDigit(s[k + 7]) && IsDigit(s[k + 9]) && IsDigit(s[k + 10])
    ensures FixedAt(s, k, [Digit, Digit, Space] + Clock)
  {
    FixedAtSpec(s, k, [Digit, Digit, Space] + Clock);
  }

  // ---------------------------------------------------------------------
  // The syslog pattern inside a word
  // ---------------------------------------------------------------------

  const SyslogQuirk: string := "ERROR foo 12 10:00:00"

  /** What the argument about `ERROR foo 12 10:00:00` needs to know of its characters. */
  predicate SyslogQuirkShape(s: string) {
    |s| == 21 && '-' !in s && '/' !in s && s[..2] == "ER" &&
    !IsSpace(s[3]) && !IsSpace(s[4]) &&
    IsWord(s[2]) && IsWord(s[3]) && IsWord(s[4]) && IsSpace(s[5]) &&
    IsWord(s[6]) && IsWord(s[7]) && IsWord(s[8]) && IsSpace(s[9]) &&
    IsSpace(s[12]) && s[15] == ':' && s[18] == ':' &&
    IsDigit(s[10]) && IsDigit(s[11]) && IsDigit(s[13]) && IsDigit(s[14]) &&
    IsDigit(s[16]) && IsDigit(s[17]) && IsDigit(s[19]) && IsDigit(s[20])
  }

  lemma SyslogQuirkNoDashNoSlash(s: string)
    requires s == SyslogQuirk
    ensures forall k :: 0 <= k < |s| ==> s[k] != '-' && s[k] != '/'
  {
  }

  lemma SyslogQuirkPrefix(s: string)
    requires s == SyslogQuirk
    ensures s[..2] == "ER"
  {
  }

  lemma SyslogQuirkPositions(s: string)
    requires s == SyslogQuirk
    ensures |s| == 21 && !IsSpace(s[3]) && !IsSpace(s[4]) &&
      IsWord(s[2]) && IsWord(s[3]) && IsWord(s[4]) && IsSpace(s[5]) &&
      IsWord(s[6]) && IsWord(s[7]) && IsWord(s[8]) && IsSpace(s[9]) &&
      IsSpace(s[12]) && s[15] == ':' && s[18] == ':' &&
      IsDigit(s[10]) && IsDigit(s[11]) && IsDigit(s[13]) && IsDigit(s[14]) &&
      IsDigit(s[16]) && IsDigit(s[17]) && IsDigit(s[19]) && IsDigit(s[20])
  {
  }

  lemma SyslogQuirkChars(s: string)
    requires s == SyslogQuirk
    ensures SyslogQuirkShape(s)
  {
    SyslogQuirkNoDashNoSlash(s);
    SyslogQuirkPrefix(s);
    SyslogQuirkPositions(s);
  }

  /** Nothing matches at `E` or at the first `R`; `ROR foo 12 10:00:00` matches from the second. */
  lemma SyslogQuirkMatch(s: string)
    requires SyslogQuirkShape(s)
    ensures MatchAt(SyslogTimestamp, s, 0) == None && MatchAt(SyslogTimestamp, s, 1) == None
    ensures MatchAt(SyslogTimestamp, s, 2) == Some(19)
  {
    SyslogHeadMisfits(s, 0, 3);
    SyslogHeadMisfits(s, 1, 3);
    SyslogHeadFits(s, 2);
    TwoDigitDayFits(s, 10);
  }

  /** The syslog pattern skips `ER` and takes `ROR foo 12 10:00:00`. */
  lemma SyslogQuirkPass(s: string)
    requires SyslogQuirkShape(s)
    ensures Substitute(SyslogTimestamp, s, TimestampToken) == "ER" + TimestampToken
  {
    SyslogQuirkMatch(s);
    OneMatchPass(SyslogTimestamp, s, 2, 19, TimestampToken);
    assert s[21..] == [];
  }

  lemma QuirkResultChars()
    ensures '-' !in "ER" + TimestampToken && '.' !in "ER" + TimestampToken
    ensures forall k :: 0 <= k < |"ER" + TimestampToken| ==> !IsSpace(("ER" + TimestampToken)[k])
    ensures "ER" + TimestampToken == "ER<TIMESTAMP>"
  {
  }

  lemma MaskSyslogQuirk(s: string)
    requires SyslogQuirkShape(s)
    ensures Mask(s) == "ER" + TimestampToken
  {
    var t := "ER" + TimestampToken;
    NoLandmarkPass(IsoTimestamp, s, '-', TimestampToken);
    NoLandmarkPass(SlashTimestamp, s, '/', TimestampToken);
    SyslogQuirkPass(s);
    QuirkResultChars();
    NoLandmarkPass(Uuid, t, '-', UuidToken);
    NoLandmarkPass(Ipv4, t, '.', IpToken);
    NoLandmarkPass(FileLocation, t, '.', FileLocationToken);
    MaskSteps(s, s, s, t, t, t, t);
  }

  lemma QuirkResultUntouched()
    ensures Collapse("ER" + TimestampToken) == "ER<TIMESTAMP>"
    ensures Strip("ER<TIMESTAMP>") == "ER<TIMESTAMP>"
  {
    QuirkResultChars();
    NoSpaceUntouched("ER" + TimestampToken);
  }

  lemma NormalizeSyslogQuirk(s: string)
    requires Mask(s) == "ER" + TimestampToken
    ensures Normalize(s) == "ER<TIMESTAMP>"
  {
    QuirkResultUntouched();
    NormalizeSteps(s, "ER" + TimestampToken, "ER<TIMESTAMP>", "ER<TIMESTAMP>");
  }

  /**
   * `ERROR foo 12 10:00:00` normalises to `ER<TIMESTAMP>`: the syslog pattern
   * has no word boundary, so its first `\w{3}` starts inside `ERROR`.
   */
  lemma SyslogInsideWord(s: string)
    requires s == SyslogQuirk
    ensures Normalize(s) == "ER<TIMESTAMP>"
  {
    SyslogQuirkChars(s);
    MaskSyslogQuirk(s);
    NormalizeSyslogQuirk(s);
  }

  // ---------------------------------------------------------------------
  // Normalising twice
  // ---------------------------------------------------------------------

  /** The ISO pattern fails at `k` when one of its fixed characters does not fit. */
  lemma IsoMisfits(s: string, k: nat, j: nat)
    requires j < |IsoStem| && k + j < |s| && !Matches(IsoStem[j], s[k + j])
    ensures MatchAt(IsoTimestamp, s, k) == None
  {
    FixedAtSpec(s, k, IsoStem);
  }

  const Date: string := "2024-01-15"
  const Level: string := " ERROR"
  const ClockAndLevel: string := "10:23:45" + Level
  const DoubleSpaced: string := Date + "  " + ClockAndLevel
  const OnceNormalized: string := Date + " " + ClockAndLevel
  const TwiceNormalized: string := TimestampToken + Level

  /** What the argument about the double-spaced line needs to know of its characters. */
  predicate DoubleSpacedShape(s: string) {
    |s| == 26 && '/' !in s && '.' !in s &&
    IsDigit(s[3]) && s[4] == '-' && s[7] == '-' && IsDigit(s[9]) &&
    s[10] == ' ' && s[11] == ' ' && !IsSpace(s[12]) &&
    (forall k :: 0 <= k < 10 ==> !IsSpace(s[k])) &&
    (forall k :: 12 <= k < |s| && IsSpace(s[k]) ==> s[k] == ' ' && (k + 1 < |s| ==> !IsSpace(s[k + 1]))) &&
    s[..10] == Date && s[12..] == ClockAndLevel
  }

  lemma DoubleSpacedPieces(s: string)
    requires s == DoubleSpaced
    ensures |s| == 26 && s[..10] == Date && s[12..] == ClockAndLevel
  {
    assert s[..10] == Date;
  }

  lemma DoubleSpacedSpaces(s: string)
    requires s == DoubleSpaced
    ensures forall k :: 0 <= k < 10 ==> !IsSpace(s[k])
    ensures forall k :: 12 <= k < |s| && IsSpace(s[k]) ==> s[k] == ' ' && (k + 1 < |s| ==> !IsSpace(s[k + 1]))
  {
  }

  lemma DoubleSpacedMarks(s: string)
    requires s == DoubleSpaced
    ensures '/' !in s && '.' !in s
    ensures IsDigit(s[3]) && s[4] == '-' && s[7] == '-' && IsDigit(s[9])
    ensures s[10] == ' ' && s[11] == ' ' && !IsSpace(s[12])
  {
  }

  lemma DoubleSpacedChars(s: string)
    requires s == DoubleSpaced
    ensures DoubleSpacedShape(s)
  {
    DoubleSpacedPieces(s);
    DoubleSpacedSpaces(s);
    DoubleSpacedMarks(s);
  }

  lemma DoubleSpacedNoIso(s: string)
    requires DoubleSpacedShape(s)
    ensures forall k :: 0 <= k < |s| ==> MatchAt(IsoTimestamp, s, k) == None
  {
    forall k | 0 <= k < |s|
      ensures MatchAt(IsoTimestamp, s, k) == None
    {
      if k == 0 {
        IsoMisfits(s, 0, 11);
      } else if k == 1 {
        IsoMisfits(s, 1, 3);
      } else if k == 2 {
        IsoMisfits(s, 2, 2);
      } else if k == 3 {
        IsoMisfits(s, 3, 1);
      } else if k == 4 {
        IsoMisfits(s, 4, 0);
      } else if k == 5 {
        IsoMisfits(s, 5, 2);
      } else if k == 6 {
        IsoMisfits(s, 6, 1);
      } else if k == 7 {
        IsoMisfits(s, 7, 0);
      } else {
        NoRoomNoMatch(IsoTimestamp, s, k);
      }
    }
  }

  lemma DoubleSpacedNoSyslog(s: string)
    requires DoubleSpacedShape(s)
    ensures forall k :: 0 <= k < |s| ==> MatchAt(SyslogTimestamp, s, k) == None
  {
    forall k | 0 <= k < |s|
      ensures MatchAt(SyslogTimestamp, s, k) == None
    {
      if k == 0 {
        SyslogHeadMisfits(s, 0, 3);
      } else if k == 1 {
        SyslogHeadMisfits(s, 1, 3);
      } else if k == 2 {
        SyslogHeadMisfits(s, 2, 2);
      } else if k == 3 {
        SyslogHeadMisfits(s, 3, 1);
      } else if k == 4 {
        SyslogHeadMisfits(s, 4, 0);
      } else if k == 5 {
        SyslogHeadMisfits(s, 5, 2);
      } else if k == 6 {
        SyslogHeadMisfits(s, 6, 1);
      } else if k == 7 {
        SyslogHeadMisfits(s, 7, 0);
      } else if k == 8 {
        SyslogHeadMisfits(s, 8, 2);
      } else {
        NoRoomNoMatch(SyslogTimestamp, s, k);
      }
    }
  }

  /** No pattern matches the double-spaced line: masking leaves it as it is. */
  lemma MaskDoubleSpaced(s: string)
    requires DoubleSpacedShape(s)
    ensures Mask(s) == s
  {
    DoubleSpacedNoIso(s);
    NoMatchPass(IsoTimestamp, s, TimestampToken);
    NoLandmarkPass(SlashTimestamp, s, '/', TimestampToken);
    DoubleSpacedNoSyslog(s);
    NoMatchPass(SyslogTimestamp, s, TimestampToken);
    TooShortPass(Uuid, s, UuidToken);
    NoLandmarkPass(Ipv4, s, '.', IpToken);
    NoLandmarkPass(FileLocation, s, '.', FileLocationToken);
    MaskSteps(s, s, s, s, s, s, s);
  }

  /** The two spaces become one; the single space later on stays. */
  lemma CollapseDoubleSpaced(s: string)
    requires DoubleSpacedShape(s)
    ensures Collapse(s) == OnceNormalized
  {
    var m := Rule(Whitespace);
    forall k | 0 <= k < 10
      ensures m(s, k) == None
    {
      assert Run(s, k, Space) == 0;
    }
    RunExact(s, 10, Space, 2);
    ReplaceUpTo(m, s, 0, 10, 2, " ");
    CollapseSinglesFrom(s, 12);
    assert s[0..10] == Date;
  }

  lemma OnceNormalizedTrimmed()
    ensures Trimmed(OnceNormalized) && Trimmed(TwiceNormalized)
  {
  }

  lemma NormalizeDoubleSpaced(s: string)
    requires Mask(s) == s && Collapse(s) == OnceNormalized
    ensures Normalize(s) == OnceNormalized
  {
    OnceNormalizedTrimmed();
    StripTrimmed(OnceNormalized);
    NormalizeSteps(s, s, OnceNormalized, OnceNormalized);
  }

  /** The first pass only collapses the double space, which hides the timestamp from the ISO pattern. */
  lemma FirstNormalization(s: string)
    requires s == DoubleSpaced
    ensures Normalize(s) == OnceNormalized
  {
    DoubleSpacedChars(s);
    MaskDoubleSpaced(s);
    CollapseDoubleSpaced(s);
    NormalizeDoubleSpaced(s);
  }

  /** What the argument about the once-normalised line needs to know of its characters. */
  predicate OnceNormalizedShape(s: string) {
    |s| == 25 && FixedAt(s, 0, IsoStem) && s[19] == ' ' && s[19..] == Level
  }

  lemma OnceNormalizedChars(s: string)
    requires s == OnceNormalized
    ensures OnceNormalizedShape(s)
  {
    FixedAtSpec(s, 0, IsoStem);
    assert s[19..] == Level;
  }

  lemma LevelChars()
    ensures '-' !in Level && '/' !in TwiceNormalized && ':' !in TwiceNormalized
    ensures '-' !in TwiceNormalized && '.' !in TwiceNormalized
    ensures forall k :: 0 <= k < |TwiceNormalized| ==> ' ' <= TwiceNormalized[k] <= '~'
    ensures forall k :: 0 <= k < |TwiceNormalized| - 1 ==> TwiceNormalized[k] != ' ' || TwiceNormalized[k + 1] != ' '
  {
  }

  /** Now the ISO pattern sees its timestamp, with a single space before the time. */
  lemma MaskOnceNormalized(s: string)
    requires OnceNormalizedShape(s)
    ensures Mask(s) == TwiceNormalized
  {
    var t := TwiceNormalized;
    LevelChars();
    assert MatchAt(IsoTimestamp, s, 0) == Some(19);
    LeadingMatchPass(IsoTimestamp, s, 19, '-', TimestampToken);
    NoLandmarkPass(SlashTimestamp, t, '/', TimestampToken);
    NoLandmarkPass(SyslogTimestamp, t, ':', TimestampToken);
    NoLandmarkPass(Uuid, t, '-', UuidToken);
    NoLandmarkPass(Ipv4, t, '.', IpToken);
    NoLandmarkPass(FileLocation, t, '.', FileLocationToken);
    MaskSteps(s, t, t, t, t, t, t);
  }

  lemma TwiceNormalizedUntouched()
    ensures Collapse(TwiceNormalized) == TwiceNormalized && Strip(TwiceNormalized) == TwiceNormalized
  {
    LevelChars();
    PlainSingleSpaced(TwiceNormalized);
    CollapseSingleSpaced(TwiceNormalized);
    OnceNormalizedTrimmed();
    StripTrimmed(TwiceNormalized);
  }

  lemma NormalizeOnceNormalized(s: string)
    requires Mask(s) == TwiceNormalized
    ensures Normalize(s) == TwiceNormalized
  {
    TwiceNormalizedUntouched();
    NormalizeSteps(s, TwiceNormalized, TwiceNormalized, TwiceNormalized);
  }

  lemma SecondNormalization(s: string)
    requires s == OnceNormalized
    ensures Normalize(s) == TwiceNormalized
  {
    OnceNormalizedChars(s);
    MaskOnceNormalized(s);
    NormalizeOnceNormalized(s);
  }

  lemma TwoResults()
    ensures OnceNormalized == "2024-01-15 10:23:45 ERROR"
    ensures TwiceNormalized == "<TIMESTAMP> ERROR"
    ensures OnceNormalized != TwiceNormalized
  {
    assert OnceNormalized[0] != TwiceNormalized[0];
  }

  /**
   * Normalising is not idempotent: `2024-01-15  10:23:45 ERROR` (two
   * spaces) normalises to `2024-01-15 10:23:45 ERROR`, because the ISO
   * pattern runs before the whitespace collapse, and that normalises in turn
   * to `<TIMESTAMP> ERROR`.
   */
  lemma NormalizeTwice(s: string)
    requires s == DoubleSpaced
    ensures Normalize(s) == "2024-01-15 10:23:45 ERROR"
    ensures Normalize(Normalize(s)) == "<TIMESTAMP> ERROR"
  {
    FirstNormalization(s);
    SecondNormalization(OnceNormalized);
    TwoResults();
  }

  lemma NotIdempotent()
    ensures exists line :: Normalize(Normalize(line)) != Normalize(line)
  {
    var s := DoubleSpaced;
    NormalizeTwice(s);
    TwoResults();
  }
}
