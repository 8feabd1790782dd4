/**
 * How far a match can look.  A barrier is a character that no pattern can
 * match or step over: it is in none of the classes `\d`, `\w`, `\s`, the hex
 * and path classes, and none of the literal characters `- : / . , ( ) T Z`.
 * The `<` and `>` that open and close every placeholder token are barriers.
 *
 * A match never reaches past a barrier, and a barrier before a position looks,
 * to the only look-behind (the `\b` of the IPv4 pattern), like the start of the
 * line.  So cutting a line at a barrier does not change the matches on either
 * side.
 */
module Locality {
  import opened Text
  import opened Patterns

  predicate IsBarrier(c: char) {
    !IsWord(c) && !IsSpace(c) && !IsPathChar(c) && c != ':' && c != ',' && c != '(' && c != ')'
  }

  lemma BarrierMatchesNoAtom(a: Atom, c: char)
    requires IsBarrier(c)
    ensures !Matches(a, c)
  {
  }

  /** `s` ends in a barrier, or is empty. */
  predicate EndsInBarrier(s: string) {
    |s| == 0 || IsBarrier(s[|s| - 1])
  }

  /** `s` starts with a barrier. */
  predicate StartsWithBarrier(s: string) {
    |s| > 0 && IsBarrier(s[0])
  }

  // ---------------------------------------------------------------------
  // The building blocks, with text added after a barrier (right) or before
  // a position (shift)
  // ---------------------------------------------------------------------

  lemma FixedAtRight(a: string, r: string, k: nat, atoms: seq<Atom>)
    requires StartsWithBarrier(r) && k <= |a|
    ensures FixedAt(a + r, k, atoms) == FixedAt(a, k, atoms)
  {
    FixedAtSpec(a + r, k, atoms);
    FixedAtSpec(a, k, atoms);
    if FixedAt(a + r, k, atoms) && k + |atoms| > |a| {
      assert Matches(atoms[|a| - k], (a + r)[|a|]);
      BarrierMatchesNoAtom(atoms[|a| - k], r[0]);
    }
    assert forall q :: 0 <= q < |a| ==> (a + r)[q] == a[q];
  }

  lemma FixedAtShift(l: string, b: string, k: nat, atoms: seq<Atom>)
    ensures FixedAt(l + b, |l| + k, atoms) == FixedAt(b, k, atoms)
  {
    FixedAtSpec(l + b, |l| + k, atoms);
    FixedAtSpec(b, k, atoms);
    assert forall q :: 0 <= q < |b| ==> (l + b)[|l| + q] == b[q];
  }

  lemma {:induction false} RunRight(a: string, r: string, k: nat, x: Atom)
    requires StartsWithBarrier(r) && k <= |a|
    ensures Run(a + r, k, x) == Run(a, k, x)
    decreases |a| - k
  {
    if k < |a| {
      assert (a + r)[k] == a[k];
      if Matches(x, a[k]) {
        RunRight(a, r, k + 1, x);
      }
    } else {
      BarrierMatchesNoAtom(x, r[0]);
    }
  }

  lemma {:induction false} RunShift(l: string, b: string, k: nat, x: Atom)
    ensures Run(l + b, |l| + k, x) == Run(b, k, x)
    decreases |b| - k
  {
    if k < |b| {
      assert (l + b)[|l| + k] == b[k];
      if Matches(x, b[k]) {
        RunShift(l, b, k + 1, x);
      }
    }
  }

  /** A position moved right by `d`. */
  function Shifted(r: Option<nat>, d: nat): Option<nat> {
    match r
    case None => None
    case Some(k) => Some(k + d)
  }

  // ---------------------------------------------------------------------
  // Text after a barrier does not change a match that starts before it
  // ---------------------------------------------------------------------

  lemma IsoTimestampRight(a: string, r: string, i: nat)
    requires StartsWithBarrier(r) && i < |a|
    ensures IsoTimestampAt(a + r, i) == IsoTimestampAt(a, i)
  {
    FixedAtRight(a, r, i, IsoStem);
    if FixedAt(a, i, IsoStem) {
      var j := i + |IsoStem|;
      FixedAtRight(a, r, j, [Comma, Digit, Digit, Digit]);
      FixedAtRight(a, r, j, [Dot, Digit, Digit, Digit]);
    }
  }

  lemma SyslogTimestampRight(a: string, r: string, i: nat)
    requires StartsWithBarrier(r) && i < |a|
    ensures SyslogTimestampAt(a + r, i) == SyslogTimestampAt(a, i)
  {
    FixedAtRight(a, r, i, SyslogHead);
    if FixedAt(a, i, SyslogHead) {
      FixedAtRight(a, r, i + |SyslogHead|, [Digit, Digit, Space] + Clock);
      FixedAtRight(a, r, i + |SyslogHead|, [Digit, Space] + Clock);
    }
  }

  lemma DottedGroupRight(a: string, r: string, k: nat)
    requires StartsWithBarrier(r) && k <= |a|
    ensures DottedGroup(a + r, k) == DottedGroup(a, k)
  {
    RunRight(a, r, k, Digit);
  }

  lemma FinalGroupRight(a: string, r: string, k: nat)
    requires StartsWithBarrier(r) && k <= |a|
    ensures FinalGroup(a + r, k) == FinalGroup(a, k)
  {
    RunRight(a, r, k, Digit);
    var n := Run(a, k, Digit);
    if n > 0 {
      assert WordAt(a + r, k + n - 1) == WordAt(a, k + n - 1);
      assert WordAt(a + r, k + n) == WordAt(a, k + n);
    }
  }

  lemma TwoGroupsRight(a: string, r: string, k: nat)
    requires StartsWithBarrier(r) && k <= |a|
    ensures TwoGroups(a + r, k) == TwoGroups(a, k)
  {
    DottedGroupRight(a, r, k);
    if DottedGroup(a, k).Some? {
      FinalGroupRight(a, r, DottedGroup(a, k).value);
    }
  }

  lemma ThreeGroupsRight(a: string, r: string, k: nat)
    requires StartsWithBarrier(r) && k <= |a|
    ensures ThreeGroups(a + r, k) == ThreeGroups(a, k)
  {
    DottedGroupRight(a, r, k);
    if DottedGroup(a, k).Some? {
      TwoGroupsRight(a, r, DottedGroup(a, k).value);
    }
  }

  lemma Ipv4Right(a: string, r: string, i: nat)
    requires StartsWithBarrier(r) && i < |a|
    ensures Ipv4At(a + r, i) == Ipv4At(a, i)
  {
    assert WordAt(a + r, i - 1) == WordAt(a, i - 1) && WordAt(a + r, i) == WordAt(a, i);
    DottedGroupRight(a, r, i);
    if DottedGroup(a, i).Some? {
      ThreeGroupsRight(a, r, DottedGroup(a, i).value);
    }
  }


  lemma LineNumberEndRight(a: string, r: string, e: nat)
    requires StartsWithBarrier(r) && e <= |a|
    ensures LineNumberEnd(a + r, e) == LineNumberEnd(a, e)
  {
    assert CharIs(a + r, e, ':') == CharIs(a, e, ':');
    if CharIs(a, e, ':') {
      RunRight(a, r, e + 1, Digit);
    }
  }

  lemma LocationFromRight(a: string, r: string, i: nat, p: nat, e: nat)
    requires StartsWithBarrier(r) && i <= p <= e <= |a|
    ensures LocationFrom(a + r, i, p, e) == LocationFrom(a, i, p, e)
  {
    var s := a + r;
    assert s[p..e] == a[p..e];
    LineNumberEndRight(a, r, e);
    if LineNumberEnd(a, e).Some? {
      var end := LineNumberEnd(a, e).value;
      assert CharIs(s, end, ')') == CharIs(a, end, ')');
    }
  }

  lemma FileLocationRight(a: string, r: string, i: nat)
    requires StartsWithBarrier(r) && i < |a|
    ensures FileLocationAt(a + r, i) == FileLocationAt(a, i)
  {
    var s := a + r;
    assert CharIs(s, i, '(') == CharIs(a, i, '(');
    var p := PathStart(a, i);
    assert PathStart(s, i) == p;
    RunRight(a, r, p, PathChar);
    var e := p + Run(a, p, PathChar);
    FileLocationAtRun(s, i, p, e);
    FileLocationAtRun(a, i, p, e);
    LocationFromRight(a, r, i, p, e);
  }

  /** A match of any pattern that starts before a barrier is the match in the text before it. */
  lemma MatchAtRight(p: Pattern, a: string, r: string, i: nat)
    requires StartsWithBarrier(r) && i < |a|
    ensures MatchAt(p, a + r, i) == MatchAt(p, a, i)
  {
    match p
    case IsoTimestamp => IsoTimestampRight(a, r, i);
    case SlashTimestamp => FixedAtRight(a, r, i, SlashStamp);
    case SyslogTimestamp => SyslogTimestampRight(a, r, i);
    case Uuid => FixedAtRight(a, r, i, UuidShape);
    case Ipv4 => Ipv4Right(a, r, i);
    case FileLocation => FileLocationRight(a, r, i);
    case Whitespace => RunRight(a, r, i, Space);
  }

  // ---------------------------------------------------------------------
  // Text before a barrier does not change a match that starts after it
  // ---------------------------------------------------------------------

  lemma IsoTimestampShift(l: string, b: string, i: nat)
    ensures IsoTimestampAt(l + b, |l| + i) == IsoTimestampAt(b, i)
  {
    FixedAtShift(l, b, i, IsoStem);
    var j := i + |IsoStem|;
    FixedAtShift(l, b, j, [Comma, Digit, Digit, Digit]);
    FixedAtShift(l, b, j, [Dot, Digit, Digit, Digit]);
    assert CharIs(l + b, |l| + j, 'Z') == CharIs(b, j, 'Z');
    assert CharIs(l + b, |l| + j + 4, 'Z') == CharIs(b, j + 4, 'Z');
  }

  lemma SyslogTimestampShift(l: string, b: string, i: nat)
    ensures SyslogTimestampAt(l + b, |l| + i) == SyslogTimestampAt(b, i)
  {
    FixedAtShift(l, b, i, SyslogHead);
    FixedAtShift(l, b, i + |SyslogHead|, [Digit, Digit, Space] + Clock);
    FixedAtShift(l, b, i + |SyslogHead|, [Digit, Space] + Clock);
  }

  lemma DottedGroupShift(l: string, b: string, k: nat)
    ensures DottedGroup(l + b, |l| + k) == Shifted(DottedGroup(b, k), |l|)
  {
    RunShift(l, b, k, Digit);
    var n := Run(b, k, Digit);
    assert CharIs(l + b, |l| + k + n, '.') == CharIs(b, k + n, '.');
  }

  lemma FinalGroupShift(l: string, b: string, k: nat)
    ensures FinalGroup(l + b, |l| + k) == Shifted(FinalGroup(b, k), |l|)
  {
    RunShift(l, b, k, Digit);
    var n := Run(b, k, Digit);
    if n > 0 {
      assert WordAt(l + b, |l| + k + n - 1) == WordAt(b, k + n - 1);
      assert WordAt(l + b, |l| + k + n) == WordAt(b, k + n);
    }
  }

  lemma BoundaryShift(l: string, b: string, k: nat)
    requires EndsInBarrier(l)
    ensures BoundaryAt(l + b, |l| + k) == BoundaryAt(b, k)
  {
    assert WordAt(l + b, |l| + k - 1) == WordAt(b, k - 1);
    assert WordAt(l + b, |l| + k) == WordAt(b, k);
  }

  lemma TwoGroupsShift(l: string, b: string, k: nat)
    ensures TwoGroups(l + b, |l| + k) == Shifted(TwoGroups(b, k), |l|)
  {
    DottedGroupShift(l, b, k);
    if DottedGroup(b, k).Some? {
      FinalGroupShift(l, b, DottedGroup(b, k).value);
    }
  }

  lemma ThreeGroupsShift(l: string, b: string, k: nat)
    ensures ThreeGroups(l + b, |l| + k) == Shifted(ThreeGroups(b, k), |l|)
  {
    DottedGroupShift(l, b, k);
    if DottedGroup(b, k).Some? {
      TwoGroupsShift(l, b, DottedGroup(b, k).value);
    }
  }

  lemma FourGroupsShift(l: string, b: string, k: nat)
    ensures FourGroups(l + b, |l| + k) == Shifted(FourGroups(b, k), |l|)
  {
    DottedGroupShift(l, b, k);
    if DottedGroup(b, k).Some? {
      ThreeGroupsShift(l, b, DottedGroup(b, k).value);
    }
  }

  lemma Ipv4Shift(l: string, b: string, i: nat)
    requires EndsInBarrier(l)
    ensures Ipv4At(l + b, |l| + i) == Ipv4At(b, i)
  {
    BoundaryShift(l, b, i);
    FourGroupsShift(l, b, i);
  }

  lemma LineNumberEndShift(l: string, b: string, e: nat)
    ensures LineNumberEnd(l + b, |l| + e) == Shifted(LineNumberEnd(b, e), |l|)
  {
    assert CharIs(l + b, |l| + e, ':') == CharIs(b, e, ':');
    RunShift(l, b, e + 1, Digit);
  }

  lemma LocationFromShift(l: string, b: string, i: nat, p: nat, e: nat)
    requires i <= p <= e <= |b|
    ensures LocationFrom(l + b, |l| + i, |l| + p, |l| + e) == LocationFrom(b, i, p, e)
  {
    var s := l + b;
    assert s[|l| + p..|l| + e] == b[p..e];
    LineNumberEndShift(l, b, e);
    if LineNumberEnd(b, e).Some? {
      var end := LineNumberEnd(b, e).value;
      assert CharIs(s, |l| + end, ')') == CharIs(b, end, ')');
    }
  }

  lemma PathStartShift(l: string, b: string, i: nat)
    requires i < |b|
    ensures PathStart(l + b, |l| + i) == |l| + PathStart(b, i)
  {
    assert CharIs(l + b, |l| + i, '(') == CharIs(b, i, '(');
  }

  lemma FileLocationShiftWithin(l: string, b: string, i: nat)
    requires i < |b|
    ensures FileLocationAt(l + b, |l| + i) == FileLocationAt(b, i)
  {
    var p := PathStart(b, i);
    var e := p + Run(b, p, PathChar);
    calc {
      FileLocationAt(l + b, |l| + i);
    == { PathStartShift(l, b, i);
         RunShift(l, b, p, PathChar);
         FileLocationAtRun(l + b, |l| + i, |l| + p, |l| + e); }
      LocationFrom(l + b, |l| + i, |l| + p, |l| + e);
    == { LocationFromShift(l, b, i, p, e); }
      LocationFrom(b, i, p, e);
    == { FileLocationAtRun(b, i, p, e); }
      FileLocationAt(b, i);
    }
  }

  lemma FileLocationShift(l: string, b: string, i: nat)
    ensures FileLocationAt(l + b, |l| + i) == FileLocationAt(b, i)
  {
    if i < |b| {
      FileLocationShiftWithin(l, b, i);
    }
  }


  /** A match of any pattern that starts after a barrier is the match in the text after it. */
  lemma MatchAtShift(p: Pattern, l: string, b: string, i: nat)
    requires EndsInBarrier(l)
    ensures MatchAt(p, l + b, |l| + i) == MatchAt(p, b, i)
  {
    match p
    case IsoTimestamp => IsoTimestampShift(l, b, i);
    case SlashTimestamp => FixedAtShift(l, b, i, SlashStamp);
    case SyslogTimestamp => SyslogTimestampShift(l, b, i);
    case Uuid => FixedAtShift(l, b, i, UuidShape);
    case Ipv4 => Ipv4Shift(l, b, i);
    case FileLocation => FileLocationShift(l, b, i);
    case Whitespace => RunShift(l, b, i, Space);
  }

  // ---------------------------------------------------------------------
  // The name inside a placeholder token holds no match
  // ---------------------------------------------------------------------

  /** Upper-case letters and `_`, as in `TIMESTAMP` or `FILE_LOCATION`. */
  predicate IsTokenName(s: string) {
    forall k :: 0 <= k < |s| ==> 'A' <= s[k] <= 'Z' || s[k] == '_'
  }

  lemma NoMatchInTokenName(p: Pattern, s: string, i: nat)
    requires IsTokenName(s)
    ensures MatchAt(p, s, i) == None
  {
    if i < |s| {
      assert !IsDigit(s[i]) && !IsSpace(s[i]);
    }
    match p
    case SyslogTimestamp =>
      FixedAtSpec(s, i, SyslogHead);
      if i + |SyslogHead| <= |s| {
        assert !Matches(SyslogHead[3], s[i + 3]);
      }
    case Uuid =>
      FixedAtSpec(s, i, UuidShape);
      if i + |UuidShape| <= |s| {
        assert !Matches(UuidShape[8], s[i + 8]);
      }
    case FileLocation =>
      if i < |s| {
        RunSpec(s, i, PathChar);
      }
    case _ =>
  }
}
