/**
 * `normalize_log_line` (log_parser/log_parser.py:8-30): six rewrites that
 * replace variable data by placeholder tokens, in a fixed order, then every
 * run of whitespace becomes one space and the ends are stripped.
 */
module Normalizer {
  import opened Text
  import opened Patterns
  import opened Rewrite
  import opened Locality

  const TimestampToken: string := "<TIMESTAMP>"
  const UuidToken: string := "<UUID>"
  const IpToken: string := "<IP>"
  const FileLocationToken: string := "<FILE_LOCATION>"

  /** Pattern `p` as a matcher for the rewriting scan. */
  function Rule(p: Pattern): (m: Matcher)
    ensures Advances(m)
  {
    (s: string, i: nat) => MatchAt(p, s, i)
  }

  /** `re.sub(p, token, s)` */
  function Substitute(p: Pattern, s: string, token: string): string {
    ReplaceAll(Rule(p), s, token)
  }

  /** Lines 15-26: the six rewrites that mask variable data, in their order. */
  function Mask(line: string): string {
    var s1 := Substitute(IsoTimestamp, line, TimestampToken);
    var s2 := Substitute(SlashTimestamp, s1, TimestampToken);
    var s3 := Substitute(SyslogTimestamp, s2, TimestampToken);
    var s4 := Substitute(Uuid, s3, UuidToken);
    var s5 := Substitute(Ipv4, s4, IpToken);
    Substitute(FileLocation, s5, FileLocationToken)
  }

  /** `re.sub(r'\s+', ' ', s)` (line 29) */
  function Collapse(s: string): string {
    Substitute(Whitespace, s, " ")
  }

  // ---------------------------------------------------------------------
  // str.strip()
  // ---------------------------------------------------------------------

  /** Every character of `s` is whitespace. */
  predicate IsBlank(s: string) {
    forall k :: 0 <= k < |s| ==> IsSpace(s[k])
  }

  /** `s` with its leading whitespace removed. */
  function StripLeft(s: string): (r: string)
    ensures |r| <= |s| && r == s[|s| - |r|..]
    ensures IsBlank(s[..|s| - |r|])
    ensures |r| > 0 ==> !IsSpace(r[0])
  {
    if |s| > 0 && IsSpace(s[0]) then StripLeft(s[1..]) else s
  }

  /** `s` with its trailing whitespace removed. */
  function StripRight(s: string): (r: string)
    ensures |r| <= |s| && r == s[..|r|]
    ensures IsBlank(s[|r|..])
    ensures |r| > 0 ==> !IsSpace(r[|r| - 1])
  {
    if |s| > 0 && IsSpace(s[|s| - 1]) then StripRight(s[..|s| - 1]) else s
  }

  /** `str.strip()` */
  function Strip(s: string): string {
    StripRight(StripLeft(s))
  }

  /** The two ends of `s` are not whitespace. */
  predicate Trimmed(s: string) {
    |s| > 0 ==> !IsSpace(s[0]) && !IsSpace(s[|s| - 1])
  }

  /** The only whitespace in `s` is single spaces. */
  predicate SingleSpaced(s: string) {
    (forall k :: 0 <= k < |s| && IsSpace(s[k]) ==> s[k] == ' ') &&
    (forall k :: 0 <= k < |s| - 1 ==> !(IsSpace(s[k]) && IsSpace(s[k + 1])))
  }

  /** The whole of `normalize_log_line`. */
  function Normalize(line: string): (r: string)
    ensures Trimmed(r) && SingleSpaced(r)
  {
    CollapsedAndStripped(Mask(line));
    Strip(Collapse(Mask(line)))
  }

  // ---------------------------------------------------------------------
  // Whitespace
  // ---------------------------------------------------------------------

  lemma SingleSpacedCons(c: char, r: string)
    requires SingleSpaced(r)
    requires IsSpace(c) ==> c == ' ' && (|r| > 0 ==> !IsSpace(r[0]))
    ensures SingleSpaced([c] + r)
  {
    var t := [c] + r;
    assert forall k :: 1 <= k < |t| ==> t[k] == r[k - 1];
  }

  /**
   * The collapsing scan from position `i` gives single-spaced text, whose
   * first character is whitespace exactly when `s[i]` is.
   */
  lemma {:induction false} CollapseFrom(s: string, i: nat)
    ensures SingleSpaced(ReplaceFrom(Rule(Whitespace), s, i, " "))
    ensures var r := ReplaceFrom(Rule(Whitespace), s, i, " ");
      |r| > 0 ==> i < |s| && (IsSpace(r[0]) <==> IsSpace(s[i]))
    decreases |s| - i
  {
    if i < |s| {
      var m := Rule(Whitespace);
      RunSpec(s, i, Space);
      var n := Run(s, i, Space);
      if n > 0 {
        assert m(s, i) == Some(n);
        CollapseFrom(s, i + n);
        var rest := ReplaceFrom(m, s, i + n, " ");
        assert ReplaceFrom(m, s, i, " ") == " " + rest;
        SingleSpacedCons(' ', rest);
      } else {
        assert m(s, i) == None;
        CollapseFrom(s, i + 1);
        var rest := ReplaceFrom(m, s, i + 1, " ");
        assert ReplaceFrom(m, s, i, " ") == [s[i]] + rest;
        SingleSpacedCons(s[i], rest);
      }
    }
  }

  lemma CollapseIsSingleSpaced(s: string)
    ensures SingleSpaced(Collapse(s))
  {
    CollapseFrom(s, 0);
  }

  lemma SliceSingleSpaced(s: string, a: nat, b: nat)
    requires a <= b <= |s| && SingleSpaced(s)
    ensures SingleSpaced(s[a..b])
  {
    var t := s[a..b];
    assert forall k :: 0 <= k < |t| ==> t[k] == s[a + k];
  }

  lemma StripRightKeepsSingleSpaced(l: string)
    requires SingleSpaced(l) && (|l| > 0 ==> !IsSpace(l[0]))
    ensures SingleSpaced(StripRight(l)) && Trimmed(StripRight(l))
  {
    var r := StripRight(l);
    SliceSingleSpaced(l, 0, |r|);
    if |r| > 0 {
      assert r[0] == l[0];
    }
  }

  lemma StripKeepsSingleSpaced(s: string)
    requires SingleSpaced(s)
    ensures SingleSpaced(Strip(s)) && Trimmed(Strip(s))
  {
    var l := StripLeft(s);
    SliceSingleSpaced(s, |s| - |l|, |s|);
    assert s[|s| - |l|..|s|] == l;
    StripRightKeepsSingleSpaced(l);
  }

  lemma CollapsedAndStripped(s: string)
    ensures SingleSpaced(Strip(Collapse(s))) && Trimmed(Strip(Collapse(s)))
  {
    CollapseIsSingleSpaced(s);
    StripKeepsSingleSpaced(Collapse(s));
  }

  /** A line without whitespace is left as it is by the collapse and the strip. */
  lemma NoSpaceUntouched(s: string)
    requires forall k :: 0 <= k < |s| ==> !IsSpace(s[k])
    ensures Collapse(s) == s && Strip(s) == s
  {
    forall k | 0 <= k < |s|
      ensures Rule(Whitespace)(s, k) == None
    {
      assert Run(s, k, Space) == 0;
    }
    NoMatchIsIdentity(Rule(Whitespace), s, " ");
  }

  // ---------------------------------------------------------------------
  // Blank lines
  // ---------------------------------------------------------------------

  /** A pass of a masking pattern leaves a blank line as it is. */
  lemma MaskPassKeepsBlank(p: Pattern, s: string, token: string)
    requires p != Whitespace && IsBlank(s)
    ensures Substitute(p, s, token) == s
  {
    forall k | 0 <= k < |s|
      ensures Rule(p)(s, k) == None
    {
      assert IsSpace(s[k]);
    }
    NoMatchIsIdentity(Rule(p), s, token);
  }

  /**
   * A rewrite keeps a non-blank line non-blank when its token does not start
   * with whitespace: a copied character stays and every token is non-blank.
   */
  lemma {:induction false} ReplaceKeepsSolid(m: Matcher, s: string, i: nat, token: string)
    requires Advances(m) && |token| > 0 && !IsSpace(token[0])
    requires exists k :: i <= k < |s| && !IsSpace(s[k])
    ensures !IsBlank(ReplaceFrom(m, s, i, token))
    decreases |s| - i
  {
    var k :| i <= k < |s| && !IsSpace(s[k]);
    match m(s, i)
    case Some(n) =>
      assert ReplaceFrom(m, s, i, token)[0] == token[0];
    case None =>
      var rest := ReplaceFrom(m, s, i + 1, token);
      assert ReplaceFrom(m, s, i, token) == [s[i]] + rest;
      if k == i {
        assert ReplaceFrom(m, s, i, token)[0] == s[i];
      } else {
        ReplaceKeepsSolid(m, s, i + 1, token);
        var j :| 0 <= j < |rest| && !IsSpace(rest[j]);
        assert ReplaceFrom(m, s, i, token)[j + 1] == rest[j];
      }
  }

  /** The collapse keeps every non-whitespace character. */
  lemma {:induction false} CollapseKeepsSolid(s: string, i: nat)
    requires exists k :: i <= k < |s| && !IsSpace(s[k])
    ensures !IsBlank(ReplaceFrom(Rule(Whitespace), s, i, " "))
    decreases |s| - i
  {
    var m := Rule(Whitespace);
    var k :| i <= k < |s| && !IsSpace(s[k]);
    RunSpec(s, i, Space);
    var n := Run(s, i, Space);
    if n > 0 {
      assert m(s, i) == Some(n);
      assert k >= i + n;
      CollapseKeepsSolid(s, i + n);
      var rest := ReplaceFrom(m, s, i + n, " ");
      assert ReplaceFrom(m, s, i, " ") == " " + rest;
      var j :| 0 <= j < |rest| && !IsSpace(rest[j]);
      assert ReplaceFrom(m, s, i, " ")[j + 1] == rest[j];
    } else {
      assert m(s, i) == None;
      var rest := ReplaceFrom(m, s, i + 1, " ");
      assert ReplaceFrom(m, s, i, " ") == [s[i]] + rest;
      assert ReplaceFrom(m, s, i, " ")[0] == s[i];
    }
  }

  lemma StripKeepsSolid(s: string)
    requires !IsBlank(s)
    ensures Strip(s) != ""
  {
    assert s[..|s|] == s;
  }

  lemma StripBlank(s: string)
    requires IsBlank(s)
    ensures Strip(s) == ""
  {
  }

  /** A line normalises to the empty string exactly when it is blank. */
  lemma NormalizeEmptyIffBlank(line: string)
    ensures Normalize(line) == "" <==> IsBlank(line)
  {
    var s1 := Substitute(IsoTimestamp, line, TimestampToken);
    var s2 := Substitute(SlashTimestamp, s1, TimestampToken);
    var s3 := Substitute(SyslogTimestamp, s2, TimestampToken);
    var s4 := Substitute(Uuid, s3, UuidToken);
    var s5 := Substitute(Ipv4, s4, IpToken);
    var s6 := Substitute(FileLocation, s5, FileLocationToken);
    assert Mask(line) == s6;
    if IsBlank(line) {
      MaskPassKeepsBlank(IsoTimestamp, line, TimestampToken);
      MaskPassKeepsBlank(SlashTimestamp, s1, TimestampToken);
      MaskPassKeepsBlank(SyslogTimestamp, s2, TimestampToken);
      MaskPassKeepsBlank(Uuid, s3, UuidToken);
      MaskPassKeepsBlank(Ipv4, s4, IpToken);
      MaskPassKeepsBlank(FileLocation, s5, FileLocationToken);
      CollapseOfBlank(s6);
      StripBlank(Collapse(s6));
    } else {
      ReplaceKeepsSolid(Rule(IsoTimestamp), line, 0, TimestampToken);
      ReplaceKeepsSolid(Rule(SlashTimestamp), s1, 0, TimestampToken);
      ReplaceKeepsSolid(Rule(SyslogTimestamp), s2, 0, TimestampToken);
      ReplaceKeepsSolid(Rule(Uuid), s3, 0, UuidToken);
      ReplaceKeepsSolid(Rule(Ipv4), s4, 0, IpToken);
      ReplaceKeepsSolid(Rule(FileLocation), s5, 0, FileLocationToken);
      CollapseKeepsSolid(s6, 0);
      StripKeepsSolid(Collapse(s6));
    }
  }

  lemma CollapseOfBlank(s: string)
    requires IsBlank(s)
    ensures IsBlank(Collapse(s))
  {
    var m := Rule(Whitespace);
    if |s| > 0 {
      RunSpec(s, 0, Space);
      assert Run(s, 0, Space) == |s|;
      assert Collapse(s) == " " + ReplaceFrom(m, s, |s|, " ");
    }
  }

  // ---------------------------------------------------------------------
  // Passes that change little
  // ---------------------------------------------------------------------

  /** Where no match starts, a pass leaves the line as it is. */
  lemma NoMatchPass(p: Pattern, s: string, token: string)
    requires forall k :: 0 <= k < |s| ==> MatchAt(p, s, k) == None
    ensures Substitute(p, s, token) == s
  {
    NoMatchIsIdentity(Rule(p), s, token);
  }

  /** A line without a landmark of `p` is left as it is by the pass of `p`. */
  lemma NoLandmarkPass(p: Pattern, s: string, c: char, token: string)
    requires IsLandmark(p, c) && c !in s
    ensures Substitute(p, s, token) == s
  {
    NoLandmarkNoMatch(p, s, 0, c);
    NoMatchPass(p, s, token);
  }

  /**
   * A line that opens with a match of `p`, and has no landmark of `p` after
   * it, has just that opening match replaced.
   */
  lemma LeadingMatchPass(p: Pattern, s: string, n: nat, c: char, token: string)
    requires MatchAt(p, s, 0) == Some(n)
    requires IsLandmark(p, c) && c !in s[n..]
    ensures Substitute(p, s, token) == token + s[n..]
  {
    forall k | n <= k < |s|
      ensures s[k] != c
    {
      assert s[k] == s[n..][k - n];
    }
    NoLandmarkNoMatch(p, s, n, c);
    OneMatchPass(p, s, 0, n, token);
  }

  /** A line shorter than the shortest match of `p` is left as it is. */
  lemma TooShortPass(p: Pattern, s: string, token: string)
    requires |s| < MinLength(p)
    ensures Substitute(p, s, token) == s
  {
    forall k | 0 <= k < |s|
      ensures MatchAt(p, s, k) == None
    {
      NoRoomNoMatch(p, s, k);
    }
    NoMatchPass(p, s, token);
  }

  /** A line with exactly one match has that match, and only it, replaced. */
  lemma OneMatchPass(p: Pattern, s: string, i: nat, n: nat, token: string)
    requires forall k :: 0 <= k < i ==> MatchAt(p, s, k) == None
    requires MatchAt(p, s, i) == Some(n)
    requires forall k :: i + n <= k < |s| ==> MatchAt(p, s, k) == None
    ensures Substitute(p, s, token) == s[..i] + token + s[i + n..]
  {
    ReplaceOnce(Rule(p), s, i, n, token);
  }

  /** A line with exactly two matches has those two, and only they, replaced. */
  lemma TwoMatchPass(p: Pattern, s: string, i: nat, n: nat, j: nat, n2: nat, token: string)
    requires forall k :: 0 <= k < i ==> MatchAt(p, s, k) == None
    requires MatchAt(p, s, i) == Some(n)
    requires i + n <= j && forall k :: i + n <= k < j ==> MatchAt(p, s, k) == None
    requires MatchAt(p, s, j) == Some(n2)
    requires forall k :: j + n2 <= k < |s| ==> MatchAt(p, s, k) == None
    ensures Substitute(p, s, token) == s[..i] + token + s[i + n..j] + token + s[j + n2..]
  {
    ReplaceTwice(Rule(p), s, i, n, j, n2, token);
  }

  /** The masking passes, one at a time. */
  lemma MaskSteps(line: string, s1: string, s2: string, s3: string, s4: string, s5: string, s6: string)
    requires Substitute(IsoTimestamp, line, TimestampToken) == s1
    requires Substitute(SlashTimestamp, s1, TimestampToken) == s2
    requires Substitute(SyslogTimestamp, s2, TimestampToken) == s3
    requires Substitute(Uuid, s3, UuidToken) == s4
    requires Substitute(Ipv4, s4, IpToken) == s5
    requires Substitute(FileLocation, s5, FileLocationToken) == s6
    ensures Mask(line) == s6
  {
  }

  /** Masking, collapsing and stripping, one at a time. */
  lemma NormalizeSteps(line: string, masked: string, collapsed: string, r: string)
    requires Mask(line) == masked && Collapse(masked) == collapsed && Strip(collapsed) == r
    ensures Normalize(line) == r
  {
  }

  /** Where every whitespace character is a lone space, the collapse changes nothing. */
  lemma {:induction false} CollapseSinglesFrom(s: string, i: nat)
    requires i <= |s|
    requires forall k :: i <= k < |s| && IsSpace(s[k]) ==> s[k] == ' ' && (k + 1 < |s| ==> !IsSpace(s[k + 1]))
    ensures ReplaceFrom(Rule(Whitespace), s, i, " ") == s[i..]
    decreases |s| - i
  {
    if i < |s| {
      var m := Rule(Whitespace);
      if IsSpace(s[i]) {
        RunExact(s, i, Space, 1);
        assert m(s, i) == Some(1);
        CollapseSinglesFrom(s, i + 1);
        assert ReplaceFrom(m, s, i, " ") == " " + s[i + 1..];
      } else {
        assert Run(s, i, Space) == 0;
        assert m(s, i) == None;
        CollapseSinglesFrom(s, i + 1);
        assert ReplaceFrom(m, s, i, " ") == [s[i]] + s[i + 1..];
      }
      assert s[i..] == [s[i]] + s[i + 1..];
    }
  }

  /** Printable ASCII text without two spaces in a row is single-spaced. */
  lemma PlainSingleSpaced(s: string)
    requires forall k :: 0 <= k < |s| ==> ' ' <= s[k] <= '~'
    requires forall k :: 0 <= k < |s| - 1 ==> s[k] != ' ' || s[k + 1] != ' '
    ensures SingleSpaced(s)
  {
  }

  lemma CollapseSingleSpaced(s: string)
    requires SingleSpaced(s)
    ensures Collapse(s) == s
  {
    CollapseSinglesFrom(s, 0);
  }

  /** A single whitespace character collapses to a space. */
  lemma CollapseOneSpace(c: char)
    requires IsSpace(c)
    ensures Collapse([c]) == " "
  {
    RunExact([c], 0, Space, 1);
    assert Rule(Whitespace)([c], 0) == Some(1);
  }

  lemma StripTrimmed(s: string)
    requires Trimmed(s)
    ensures Strip(s) == s
  {
    assert s[..|s|] == s;
  }

  lemma StripTrailingSpace(s: string)
    requires |s| > 0 && Trimmed(s)
    ensures Strip(s + " ") == s
  {
    var t := s + " ";
    assert t[0] == s[0];
    assert StripLeft(t) == t;
    assert t[..|t| - 1] == s;
    assert IsSpace(t[|t| - 1]);
    assert StripRight(t) == StripRight(s);
    assert StripRight(s) == s;
  }

  // ---------------------------------------------------------------------
  // Placeholder tokens
  // ---------------------------------------------------------------------

  /** `<`, an upper-case name, `>` */
  predicate IsPlaceholder(t: string) {
    |t| >= 2 && t[0] == '<' && t[|t| - 1] == '>' && IsTokenName(t[1..|t| - 1])
  }

  lemma TokensArePlaceholders()
    ensures IsPlaceholder(TimestampToken) && IsPlaceholder(UuidToken)
    ensures IsPlaceholder(IpToken) && IsPlaceholder(FileLocationToken)
  {
  }

  /** A placeholder is `<`, its name and `>`. */
  lemma PlaceholderPieces(a: string, t: string, b: string)
    requires IsPlaceholder(t)
    ensures a + t + b == (a + "<") + (t[1..|t| - 1] + (">" + b))
  {
    assert t == "<" + t[1..|t| - 1] + ">";
  }

  /** A match after a barrier-ended prefix is one in the rest of the text. */
  lemma MatchAfterPrefix(p: Pattern, s: string, l: string, rest: string, k: nat)
    requires s == l + rest && EndsInBarrier(l) && |l| <= k
    ensures MatchAt(p, s, k) == MatchAt(p, rest, k - |l|)
  {
    MatchAtShift(p, l, rest, k - |l|);
  }

  /** No match starts inside a placeholder's name, whatever follows the token. */
  lemma NoMatchInName(p: Pattern, t: string, b: string, j: nat)
    requires IsPlaceholder(t) && j < |t| - 2
    ensures MatchAt(p, t[1..|t| - 1] + (">" + b), j) == None
  {
    var name := t[1..|t| - 1];
    MatchAtRight(p, name, ">" + b, j);
    NoMatchInTokenName(p, name, j);
  }

  /** No match starts at a character of a placeholder's name. */
  lemma NoMatchInPlaceholderName(p: Pattern, a: string, t: string, b: string, k: nat)
    requires IsPlaceholder(t) && |a| < k < |a| + |t| - 1
    ensures MatchAt(p, a + t + b, k) == None
  {
    PlaceholderPieces(a, t, b);
    MatchAfterPrefix(p, a + t + b, a + "<", t[1..|t| - 1] + (">" + b), k);
    NoMatchInName(p, t, b, k - |a| - 1);
  }

  /** No match starts at an angle bracket. */
  lemma NoMatchAtAngle(p: Pattern, s: string, k: nat)
    requires k < |s| && (s[k] == '<' || s[k] == '>')
    ensures MatchAt(p, s, k) == None
  {
    var m := MatchAt(p, s, k);
    assert m.Some? ==> CanStart(p, s[k]);
  }

  /** No match of any pattern starts inside a placeholder token. */
  lemma NoMatchInPlaceholder(p: Pattern, a: string, t: string, b: string, k: nat)
    requires IsPlaceholder(t) && |a| <= k < |a| + |t|
    ensures MatchAt(p, a + t + b, k) == None
  {
    var s := a + t + b;
    if k == |a| {
      assert s[k] == t[0] == '<';
      NoMatchAtAngle(p, s, k);
    } else if k == |a| + |t| - 1 {
      assert s[k] == t[|t| - 1] == '>';
      NoMatchAtAngle(p, s, k);
    } else {
      NoMatchInPlaceholderName(p, a, t, b, k);
    }
  }

  /** The matches before a placeholder are those of the text before it alone. */
  lemma MatchesBeforePlaceholder(p: Pattern, a: string, t: string, b: string)
    requires IsPlaceholder(t)
    ensures forall k :: 0 <= k < |a| ==> Rule(p)(a + t + b, k) == Rule(p)(a, k)
  {
    forall k | 0 <= k < |a|
      ensures MatchAt(p, a + t + b, k) == MatchAt(p, a, k)
    {
      assert a + t + b == a + (t + b);
      MatchAtRight(p, a, t + b, k);
    }
  }

  /** The matches after a barrier-ended prefix are those of the rest alone. */
  lemma MatchesAfterBarrier(p: Pattern, l: string, b: string)
    requires EndsInBarrier(l)
    ensures forall k :: 0 <= k < |b| ==> Rule(p)(l + b, |l| + k) == Rule(p)(b, k)
  {
    forall k | 0 <= k < |b|
      ensures Rule(p)(l + b, |l| + k) == Rule(p)(b, k)
    {
      MatchAtShift(p, l, b, k);
    }
  }

  /** The matches after a placeholder are those of the text after it alone. */
  lemma MatchesAfterPlaceholder(p: Pattern, a: string, t: string, b: string)
    requires IsPlaceholder(t)
    ensures forall k :: 0 <= k < |b| ==> Rule(p)(a + t + b, |a| + |t| + k) == Rule(p)(b, k)
  {
    assert EndsInBarrier(a + t) by {
      assert (a + t)[|a + t| - 1] == t[|t| - 1];
    }
    MatchesAfterBarrier(p, a + t, b);
    assert |a + t| == |a| + |t|;
  }

  /**
   * A placeholder token in a line is kept as it is by every pass, and the text
   * on its two sides is rewritten as if each stood alone.
   */
  lemma PlaceholderSurvives(p: Pattern, a: string, t: string, b: string, token: string)
    requires IsPlaceholder(t)
    ensures Substitute(p, a + t + b, token) == Substitute(p, a, token) + t + Substitute(p, b, token)
  {
    MatchesBeforePlaceholder(p, a, t, b);
    forall k | |a| <= k < |a| + |t|
      ensures Rule(p)(a + t + b, k) == None
    {
      NoMatchInPlaceholder(p, a, t, b, k);
    }
    MatchesAfterPlaceholder(p, a, t, b);
    SplitAround(Rule(p), a, t, b, token);
  }

  /** The masking as a whole keeps a placeholder token and masks each side alone. */
  lemma MaskKeepsPlaceholder(a: string, t: string, b: string)
    requires IsPlaceholder(t)
    ensures Mask(a + t + b) == Mask(a) + t + Mask(b)
  {
    PlaceholderSurvives(IsoTimestamp, a, t, b, TimestampToken);
    var a1, b1 := Substitute(IsoTimestamp, a, TimestampToken), Substitute(IsoTimestamp, b, TimestampToken);
    PlaceholderSurvives(SlashTimestamp, a1, t, b1, TimestampToken);
    var a2, b2 := Substitute(SlashTimestamp, a1, TimestampToken), Substitute(SlashTimestamp, b1, TimestampToken);
    PlaceholderSurvives(SyslogTimestamp, a2, t, b2, TimestampToken);
    var a3, b3 := Substitute(SyslogTimestamp, a2, TimestampToken), Substitute(SyslogTimestamp, b2, TimestampToken);
    PlaceholderSurvives(Uuid, a3, t, b3, UuidToken);
    var a4, b4 := Substitute(Uuid, a3, UuidToken), Substitute(Uuid, b3, UuidToken);
    PlaceholderSurvives(Ipv4, a4, t, b4, IpToken);
    var a5, b5 := Substitute(Ipv4, a4, IpToken), Substitute(Ipv4, b4, IpToken);
    PlaceholderSurvives(FileLocation, a5, t, b5, FileLocationToken);
  }
}
