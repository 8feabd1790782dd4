/**
 * What `normalize_log_line` does to particular lines: two error lines that
 * differ only in their timestamp and address fall into one group.
 */
module Examples {
  import opened Text
  import opened Patterns
  import opened Locality
  import opened Normalizer

  // ---------------------------------------------------------------------
  // Lines that differ only in variable data normalise alike
  // ---------------------------------------------------------------------

  const Failed: string := " ERROR Connection failed to "

  /** `c` is neither a digit nor a landmark of any pattern. */
  predicate Plain(c: char) {
    !IsDigit(c) && c != ':' && c != '/' && c != '-' && c != '.'
  }

  lemma FailedIsPlain()
    ensures forall k :: 0 <= k < |Failed| ==> Plain(Failed[k])
  {
  }

  lemma FailedHoldsNoLandmark()
    ensures ':' !in Failed && '/' !in Failed && '-' !in Failed && '.' !in Failed
    ensures forall k :: 0 <= k < |Failed| ==> !IsDigit(Failed[k])
  {
    FailedIsPlain();
  }

  lemma TokensHoldNoLandmark()
    ensures forall k :: 0 <= k < |TimestampToken| ==> !IsDigit(TimestampToken[k])
    ensures ':' !in TimestampToken && '/' !in TimestampToken && '-' !in TimestampToken && '.' !in TimestampToken
    ensures forall k :: 0 <= k < |IpToken| ==> !IsDigit(IpToken[k])
    ensures ':' !in IpToken && '/' !in IpToken && '-' !in IpToken && '.' !in IpToken
  {
  }

  /** What an address is made of holds no landmark but `.`. */
  lemma QuadHoldsNoLandmark(ip: string)
    requires DottedQuad(ip)
    ensures ':' !in ip && '/' !in ip && '-' !in ip
  {
  }

  /** `ts` is an ISO timestamp with neither fraction nor zone. */
  predicate IsoStamp(ts: string) {
    |ts| == |IsoStem| && FixedAt(ts, 0, IsoStem)
  }

  /** `ip` is a dotted quad the IPv4 pattern takes whole, when it follows `Failed`. */
  predicate DottedQuad(ip: string) {
    (forall k :: 0 <= k < |ip| ==> IsDigit(ip[k]) || ip[k] == '.') &&
    MatchAt(Ipv4, Failed + ip + "\n", |Failed|) == Some(|ip|)
  }

  /** One to three digits: a group of a dotted quad. */
  predicate Group(g: string) {
    1 <= |g| <= 3 && forall k :: 0 <= k < |g| ==> IsDigit(g[k])
  }

  /** A group followed by a non-digit is a maximal run of digits. */
  lemma GroupRun(pre: string, g: string, post: string)
    requires Group(g) && |post| > 0 && !IsDigit(post[0])
    ensures Run(pre + g + post, |pre|, Digit) == |g| && (pre + g + post)[|pre| + |g|] == post[0]
  {
    var s := pre + g + post;
    assert forall k :: |pre| <= k < |pre| + |g| ==> s[k] == g[k - |pre|];
    RunExact(s, |pre|, Digit, |g|);
  }

  lemma DottedGroupIn(pre: string, g: string, post: string)
    requires Group(g) && |post| > 0 && post[0] == '.'
    ensures DottedGroup(pre + g + post, |pre|) == Some(|pre| + |g| + 1)
  {
    GroupRun(pre, g, post);
  }

  lemma FinalGroupIn(pre: string, g: string)
    requires Group(g)
    ensures FinalGroup(pre + g + "\n", |pre|) == Some(|pre| + |g|)
  {
    GroupRun(pre, g, "\n");
  }

  /** `a.b.c.d` */
  function Quad(a: string, b: string, c: string, d: string): string {
    a + "." + b + "." + c + "." + d
  }

  lemma FirstGroups(s: string, pre: string, a: string, b: string, rest: string)
    requires s == pre + a + "." + b + rest
    requires Group(a) && Group(b) && |rest| > 0 && rest[0] == '.'
    ensures DottedGroup(s, |pre|) == Some(|pre| + |a| + 1)
    ensures DottedGroup(s, |pre| + |a| + 1) == Some(|pre| + |a| + |b| + 2)
  {
    assert s == pre + a + ("." + b + rest);
    DottedGroupIn(pre, a, "." + b + rest);
    DottedGroupIn(pre + a + ".", b, rest);
  }

  lemma LastGroups(s: string, pre: string, c: string, d: string)
    requires s == pre + c + "." + d + "\n"
    requires Group(c) && Group(d)
    ensures DottedGroup(s, |pre|) == Some(|pre| + |c| + 1)
    ensures FinalGroup(s, |pre| + |c| + 1) == Some(|pre| + |c| + |d| + 1)
  {
    assert s == pre + c + ("." + d + "\n");
    DottedGroupIn(pre, c, "." + d + "\n");
    FinalGroupIn(pre + c + ".", d);
  }

  /** The IPv4 pattern from its four groups. */
  lemma Ipv4FromGroups(s: string, i: nat, k1: nat, k2: nat, k3: nat, k4: nat)
    requires BoundaryAt(s, i) && DottedGroup(s, i) == Some(k1) && DottedGroup(s, k1) == Some(k2) &&
      DottedGroup(s, k2) == Some(k3) && FinalGroup(s, k3) == Some(k4)
    ensures MatchAt(Ipv4, s, i) == Some(k4 - i)
  {
  }

  lemma QuadFirstHalf(s: string, pre: string, a: string, b: string, c: string, d: string)
    requires s == pre + Quad(a, b, c, d) + "\n"
    requires Group(a) && Group(b)
    ensures DottedGroup(s, |pre|) == Some(|pre| + |a| + 1)
    ensures DottedGroup(s, |pre| + |a| + 1) == Some(|pre| + |a| + |b| + 2)
  {
    FirstGroups(s, pre, a, b, "." + c + "." + d + "\n");
  }

  lemma QuadSecondHalf(s: string, pre: string, a: string, b: string, c: string, d: string)
    requires s == pre + Quad(a, b, c, d) + "\n"
    requires Group(c) && Group(d)
    ensures var k3 := |pre| + |a| + |b| + |c| + 3;
      DottedGroup(s, |pre| + |a| + |b| + 2) == Some(k3) && FinalGroup(s, k3) == Some(k3 + |d|)
  {
    var mid := pre + a + "." + b + ".";
    assert s == mid + c + "." + d + "\n";
    LastGroups(s, mid, c, d);
  }

  /** After a head that ends in a non-word character, `a.b.c.d` is matched whole. */
  lemma QuadMatch(pre: string, a: string, b: string, c: string, d: string)
    requires |pre| > 0 && !IsWord(pre[|pre| - 1])
    requires Group(a) && Group(b) && Group(c) && Group(d)
    ensures MatchAt(Ipv4, pre + Quad(a, b, c, d) + "\n", |pre|) == Some(|Quad(a, b, c, d)|)
  {
    var s := pre + Quad(a, b, c, d) + "\n";
    var k3 := |pre| + |a| + |b| + |c| + 3;
    assert |Quad(a, b, c, d)| == |a| + |b| + |c| + |d| + 3;
    assert BoundaryAt(s, |pre|) by {
      assert s[|pre| - 1] == pre[|pre| - 1] && s[|pre|] == a[0];
    }
    QuadFirstHalf(s, pre, a, b, c, d);
    QuadSecondHalf(s, pre, a, b, c, d);
    Ipv4FromGroups(s, |pre|, |pre| + |a| + 1, |pre| + |a| + |b| + 2, k3, |pre| + |Quad(a, b, c, d)|);
  }

  lemma QuadChars(a: string, b: string, c: string, d: string)
    requires Group(a) && Group(b) && Group(c) && Group(d)
    ensures var ip := Quad(a, b, c, d);
      forall k :: 0 <= k < |ip| ==> IsDigit(ip[k]) || ip[k] == '.'
  {
  }

  /** Any four groups of one to three digits, joined by dots, make an address the IPv4 pattern takes whole. */
  lemma QuadIsDotted(a: string, b: string, c: string, d: string)
    requires Group(a) && Group(b) && Group(c) && Group(d)
    ensures DottedQuad(Quad(a, b, c, d))
  {
    assert Failed[|Failed| - 1] == ' ';
    QuadMatch(Failed, a, b, c, d);
    QuadChars(a, b, c, d);
  }

  /** An ISO timestamp followed by a space is matched whole. */
  lemma IsoStampMatch(ts: string, r: string)
    requires IsoStamp(ts) && |r| > 0 && r[0] == ' '
    ensures MatchAt(IsoTimestamp, ts + r, 0) == Some(|IsoStem|)
  {
    var line := ts + r;
    assert FixedAt(line, 0, IsoStem) by {
      FixedAtSpec(line, 0, IsoStem);
      FixedAtSpec(ts, 0, IsoStem);
      assert forall j :: 0 <= j < |ts| ==> line[j] == ts[j];
    }
    assert line[19] == ' ';
    assert !FixedAt(line, 19, [Comma, Digit, Digit, Digit]);
    assert !FixedAt(line, 19, [Dot, Digit, Digit, Digit]);
  }

  lemma IsoPassOnFailedLine(ts: string, ip: string)
    requires IsoStamp(ts) && DottedQuad(ip)
    ensures Substitute(IsoTimestamp, ts + (Failed + ip + "\n"), TimestampToken)
         == TimestampToken + (Failed + ip + "\n")
  {
    var r := Failed + ip + "\n";
    IsoStampMatch(ts, r);
    assert (ts + r)[19..] == r;
    FailedHoldsNoLandmark();
    QuadHoldsNoLandmark(ip);
    LeadingMatchPass(IsoTimestamp, ts + r, 19, ':', TimestampToken);
  }

  /** No address starts in the masked timestamp or in the words after it. */
  lemma NoAddressBeforeQuad(ip: string)
    ensures var s := TimestampToken + (Failed + ip + "\n");
      forall k :: 0 <= k < |TimestampToken| + |Failed| ==> MatchAt(Ipv4, s, k) == None
  {
    var s := TimestampToken + (Failed + ip + "\n");
    var i := |TimestampToken| + |Failed|;
    TokensHoldNoLandmark();
    FailedHoldsNoLandmark();
    assert forall k :: 0 <= k < |TimestampToken| ==> s[k] == TimestampToken[k];
    assert forall k :: |TimestampToken| <= k < i ==> s[k] == Failed[k - |TimestampToken|];
    NoStartNoMatch(Ipv4, s, 0, i);
  }

  /** The address is still matched whole once the timestamp before it is masked. */
  lemma QuadMatchAfterMask(ip: string)
    requires DottedQuad(ip)
    ensures MatchAt(Ipv4, TimestampToken + (Failed + ip + "\n"), |TimestampToken| + |Failed|) == Some(|ip|)
  {
    MatchAtShift(Ipv4, TimestampToken, Failed + ip + "\n", |Failed|);
  }

  /** Nothing after the address starts another. */
  lemma NoAddressAfterQuad(ip: string)
    ensures var s := TimestampToken + (Failed + ip + "\n");
      forall k :: |TimestampToken| + |Failed| + |ip| <= k < |s| ==> MatchAt(Ipv4, s, k) == None
  {
    var s := TimestampToken + (Failed + ip + "\n");
    assert s[|s| - 1] == '\n';
    NoStartNoMatch(Ipv4, s, |s| - 1, |s|);
  }

  lemma IpPassOnFailedLine(ip: string)
    requires DottedQuad(ip)
    ensures Substitute(Ipv4, TimestampToken + (Failed + ip + "\n"), IpToken)
         == TimestampToken + Failed + IpToken + "\n"
  {
    var s := TimestampToken + (Failed + ip + "\n");
    var i := |TimestampToken| + |Failed|;
    NoAddressBeforeQuad(ip);
    QuadMatchAfterMask(ip);
    NoAddressAfterQuad(ip);
    OneMatchPass(Ipv4, s, i, |ip|, IpToken);
    assert s[..i] == TimestampToken + Failed && s[i + |ip|..] == "\n";
  }

  /** What is left after the masking passes has neither `.` nor a digit. */
  lemma FileLocationPassOnMasked()
    ensures Substitute(FileLocation, TimestampToken + Failed + IpToken + "\n", FileLocationToken)
         == TimestampToken + Failed + IpToken + "\n"
  {
    var s := TimestampToken + Failed + IpToken + "\n";
    assert '.' !in s by {
      TokensHoldNoLandmark();
      FailedHoldsNoLandmark();
    }
    NoLandmarkPass(FileLocation, s, '.', FileLocationToken);
  }

  /** The slash, syslog and UUID passes find nothing once the timestamp is masked. */
  lemma MiddlePassesOnFailedLine(ip: string)
    requires DottedQuad(ip)
    ensures var s := TimestampToken + (Failed + ip + "\n");
      Substitute(SlashTimestamp, s, TimestampToken) == s &&
      Substitute(SyslogTimestamp, s, TimestampToken) == s &&
      Substitute(Uuid, s, UuidToken) == s
  {
    var s := TimestampToken + (Failed + ip + "\n");
    assert '/' !in s && ':' !in s && '-' !in s by {
      TokensHoldNoLandmark();
      FailedHoldsNoLandmark();
      QuadHoldsNoLandmark(ip);
    }
    NoLandmarkPass(SlashTimestamp, s, '/', TimestampToken);
    NoLandmarkPass(SyslogTimestamp, s, ':', TimestampToken);
    NoLandmarkPass(Uuid, s, '-', UuidToken);
  }

  /** Any ISO timestamp and any four groups of one to three digits, joined by dots, are masked to their tokens. */
  lemma MaskFailedLine(ts: string, a: string, b: string, c: string, d: string)
    requires IsoStamp(ts) && Group(a) && Group(b) && Group(c) && Group(d)
    ensures Mask(ts + (Failed + Quad(a, b, c, d) + "\n")) == TimestampToken + Failed + IpToken + "\n"
  {
    var ip := Quad(a, b, c, d);
    QuadIsDotted(a, b, c, d);
    var s1 := TimestampToken + (Failed + ip + "\n");
    var s5 := TimestampToken + Failed + IpToken + "\n";
    IsoPassOnFailedLine(ts, ip);
    MiddlePassesOnFailedLine(ip);
    IpPassOnFailedLine(ip);
    FileLocationPassOnMasked();
    MaskSteps(ts + (Failed + ip + "\n"), s1, s1, s1, s1, s5, s5);
  }

  lemma HeadSingleSpaced()
    ensures SingleSpaced(TimestampToken + Failed)
  {
    var h := TimestampToken + Failed;
    assert forall k :: 0 <= k < |h| ==> ' ' <= h[k] <= '~';
    assert forall k :: 0 <= k < |h| - 1 ==> h[k] != ' ' || h[k + 1] != ' ';
    PlainSingleSpaced(h);
  }

  lemma CollapseFailedLine()
    ensures Collapse(TimestampToken + Failed + IpToken + "\n") == TimestampToken + Failed + IpToken + " "
  {
    var head := TimestampToken + Failed;
    TokensArePlaceholders();
    PlaceholderSurvives(Whitespace, head, IpToken, "\n", " ");
    assert Collapse(head) == head by {
      HeadSingleSpaced();
      CollapseSingleSpaced(head);
    }
    CollapseOneSpace('\n');
  }

  lemma StripFailedLine()
    ensures Strip(TimestampToken + Failed + IpToken + " ") == "<TIMESTAMP> ERROR Connection failed to <IP>"
  {
    var g := TimestampToken + Failed + IpToken;
    assert g == "<TIMESTAMP> ERROR Connection failed to <IP>";
    StripTrailingSpace(g);
  }

  /** A line that masks to the failed-connection shape normalises to its group. */
  lemma NormalizeMaskedFailedLine(line: string)
    requires Mask(line) == TimestampToken + Failed + IpToken + "\n"
    ensures Normalize(line) == "<TIMESTAMP> ERROR Connection failed to <IP>"
  {
    CollapseFailedLine();
    StripFailedLine();
    NormalizeSteps(line, TimestampToken + Failed + IpToken + "\n", TimestampToken + Failed + IpToken + " ",
      "<TIMESTAMP> ERROR Connection failed to <IP>");
  }

  /**
   * Any ISO timestamp and any address give the same group: both are
   * replaced, and the trailing newline goes with the final strip.
   */
  lemma FailedLinesGroupTogether(ts: string, a: string, b: string, c: string, d: string)
    requires IsoStamp(ts) && Group(a) && Group(b) && Group(c) && Group(d)
    ensures Normalize(ts + Failed + Quad(a, b, c, d) + "\n") == "<TIMESTAMP> ERROR Connection failed to <IP>"
  {
    var ip := Quad(a, b, c, d);
    assert ts + Failed + ip + "\n" == ts + (Failed + ip + "\n");
    MaskFailedLine(ts, a, b, c, d);
    NormalizeMaskedFailedLine(ts + Failed + ip + "\n");
  }

  /** The two sample timestamps are ISO timestamps. */
  lemma SampleStamps()
    ensures IsoStamp("2024-01-15T10:23:45") && IsoStamp("2024-01-16T11:00:02")
  {
    IsoStampOf("2024-01-15T10:23:45");
    IsoStampOf("2024-01-16T11:00:02");
  }

  lemma IsoStampOf(ts: string)
    requires |ts| == |IsoStem| && forall j :: 0 <= j < |IsoStem| ==> Matches(IsoStem[j], ts[j])
    ensures IsoStamp(ts)
  {
    FixedAtSpec(ts, 0, IsoStem);
  }

  /** `2024-01-15T10:23:45 ERROR Connection failed to 192.168.1.5` and its newline */
  const FirstLine: string := "2024-01-15T10:23:45" + " ERROR Connection failed to " + Quad("192", "168", "1", "5") + "\n"
  /** `2024-01-16T11:00:02 ERROR Connection failed to 10.0.0.9` and its newline */
  const SecondLine: string := "2024-01-16T11:00:02" + " ERROR Connection failed to " + Quad("10", "0", "0", "9") + "\n"

  lemma FirstFailedLine()
    ensures Normalize(FirstLine) == "<TIMESTAMP> ERROR Connection failed to <IP>"
  {
    SampleStamps();
    FailedLinesGroupTogether("2024-01-15T10:23:45", "192", "168", "1", "5");
  }

  lemma SecondFailedLine()
    ensures Normalize(SecondLine) == "<TIMESTAMP> ERROR Connection failed to <IP>"
  {
    SampleStamps();
    FailedLinesGroupTogether("2024-01-16T11:00:02", "10", "0", "0", "9");
  }
}
