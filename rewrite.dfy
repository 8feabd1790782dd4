/**
 * `re.sub(pattern, token, line)` for one of the fixed patterns: scan from the
 * left; where the pattern matches, emit the token and continue after the
 * match; elsewhere copy one character and move on.  Every match is non-empty,
 * so the scan always makes progress.
 */
module Rewrite {
  import opened Text

  /** A pattern tried at a position of a line: the length of its match there, if any. */
  type Matcher = (string, nat) -> Option<nat>

  /** Every match is non-empty and lies inside the line. */
  ghost predicate Advances(m: Matcher) {
    forall s: string, i: nat :: m(s, i).Some? ==> i < |s| && 0 < m(s, i).value && i + m(s, i).value <= |s|
  }

  /** The rewrite of `s[i..]`, matches being looked for in the whole of `s`. */
  function ReplaceFrom(m: Matcher, s: string, i: nat, token: string): string
    requires Advances(m)
    decreases |s| - i
  {
    if i >= |s| then []
    else match m(s, i)
      case Some(n) => token + ReplaceFrom(m, s, i + n, token)
      case None => [s[i]] + ReplaceFrom(m, s, i + 1, token)
  }

  /** `re.sub(pattern, token, s)` */
  function ReplaceAll(m: Matcher, s: string, token: string): string
    requires Advances(m)
  {
    ReplaceFrom(m, s, 0, token)
  }

  /** No match of `m` starts in `s[i..j]`. */
  ghost predicate NoMatchIn(m: Matcher, s: string, i: nat, j: nat) {
    forall k :: i <= k < j ==> m(s, k) == None
  }

  /** Where no match starts, the text is copied unchanged. */
  lemma {:induction false} CopyUnmatched(m: Matcher, s: string, i: nat, j: nat, token: string)
    requires Advances(m)
    requires i <= j <= |s|
    requires NoMatchIn(m, s, i, j)
    ensures ReplaceFrom(m, s, i, token) == s[i..j] + ReplaceFrom(m, s, j, token)
    decreases j - i
  {
    if i < j {
      assert m(s, i) == None;
      assert ReplaceFrom(m, s, i, token) == [s[i]] + ReplaceFrom(m, s, i + 1, token);
      CopyUnmatched(m, s, i + 1, j, token);
      assert s[i..j] == [s[i]] + s[i + 1..j];
    }
  }

  /** A line in which the pattern matches nowhere is left as it is. */
  lemma NoMatchIsIdentity(m: Matcher, s: string, token: string)
    requires Advances(m)
    requires NoMatchIn(m, s, 0, |s|)
    ensures ReplaceAll(m, s, token) == s
  {
    CopyUnmatched(m, s, 0, |s|, token);
  }

  /** The rewrite from `i` copies up to the next match, at `j`, and puts the token in its place. */
  lemma ReplaceUpTo(m: Matcher, s: string, i: nat, j: nat, n: nat, token: string)
    requires Advances(m)
    requires i <= j && NoMatchIn(m, s, i, j) && m(s, j) == Some(n)
    ensures ReplaceFrom(m, s, i, token) == s[i..j] + token + ReplaceFrom(m, s, j + n, token)
  {
    CopyUnmatched(m, s, i, j, token);
  }

  /** A line with exactly one match has that match, and only it, replaced. */
  lemma ReplaceOnce(m: Matcher, s: string, i: nat, n: nat, token: string)
    requires Advances(m)
    requires NoMatchIn(m, s, 0, i) && m(s, i) == Some(n) && NoMatchIn(m, s, i + n, |s|)
    ensures ReplaceAll(m, s, token) == s[..i] + token + s[i + n..]
  {
    var tail := ReplaceFrom(m, s, i + n, token);
    assert tail == s[i + n..] by {
      CopyUnmatched(m, s, i + n, |s|, token);
    }
    assert ReplaceFrom(m, s, 0, token) == s[..i] + token + tail by {
      ReplaceUpTo(m, s, 0, i, n, token);
    }
  }

  /** A line with exactly two matches has those two, and only they, replaced. */
  lemma ReplaceTwice(m: Matcher, s: string, i: nat, n: nat, j: nat, n2: nat, token: string)
    requires Advances(m)
    requires NoMatchIn(m, s, 0, i) && m(s, i) == Some(n)
    requires i + n <= j && NoMatchIn(m, s, i + n, j) && m(s, j) == Some(n2)
    requires NoMatchIn(m, s, j + n2, |s|)
    ensures ReplaceAll(m, s, token) == s[..i] + token + s[i + n..j] + token + s[j + n2..]
  {
    var tail := ReplaceFrom(m, s, j + n2, token);
    assert tail == s[j + n2..] by {
      CopyUnmatched(m, s, j + n2, |s|, token);
    }
    var middle := ReplaceFrom(m, s, i + n, token);
    assert middle == s[i + n..j] + token + tail by {
      ReplaceUpTo(m, s, i + n, j, n2, token);
    }
    assert ReplaceFrom(m, s, 0, token) == s[..i] + token + middle by {
      ReplaceUpTo(m, s, 0, i, n, token);
    }
  }

  /**
   * When the matches in the first `|a|` characters of `s` are those of `a`
   * alone, the rewrite of `s` starts with the rewrite of `a`.
   */
  lemma {:induction false} RewritePrefix(m: Matcher, s: string, a: string, i: nat, token: string)
    requires Advances(m)
    requires |a| <= |s| && s[..|a|] == a && i <= |a|
    requires forall k :: 0 <= k < |a| ==> m(s, k) == m(a, k)
    ensures ReplaceFrom(m, s, i, token) == ReplaceFrom(m, a, i, token) + ReplaceFrom(m, s, |a|, token)
    decreases |a| - i
  {
    if i < |a| {
      assert s[i] == a[i] && m(s, i) == m(a, i);
      var rest := ReplaceFrom(m, s, |a|, token);
      match m(a, i)
      case Some(n) =>
        RewritePrefix(m, s, a, i + n, token);
        MatchedStep(m, s, a, i, n, token, rest);
      case None =>
        RewritePrefix(m, s, a, i + 1, token);
        UnmatchedStep(m, s, a, i, token, rest);
    }
  }

  /** A match at `i`, the same in `s` and in `a`, puts the token in front of both rewrites. */
  lemma MatchedStep(m: Matcher, s: string, a: string, i: nat, n: nat, token: string, rest: string)
    requires Advances(m)
    requires i < |a| && i < |s| && m(s, i) == Some(n) && m(a, i) == Some(n)
    requires ReplaceFrom(m, s, i + n, token) == ReplaceFrom(m, a, i + n, token) + rest
    ensures ReplaceFrom(m, s, i, token) == ReplaceFrom(m, a, i, token) + rest
  {
    var x := ReplaceFrom(m, a, i + n, token);
    assert ReplaceFrom(m, s, i, token) == token + (x + rest);
  }

  /** No match at `i` in either, and the same character there, puts that character in front of both. */
  lemma UnmatchedStep(m: Matcher, s: string, a: string, i: nat, token: string, rest: string)
    requires Advances(m)
    requires i < |a| && i < |s| && s[i] == a[i] && m(s, i) == None && m(a, i) == None
    requires ReplaceFrom(m, s, i + 1, token) == ReplaceFrom(m, a, i + 1, token) + rest
    ensures ReplaceFrom(m, s, i, token) == ReplaceFrom(m, a, i, token) + rest
  {
    var x := ReplaceFrom(m, a, i + 1, token);
    var c := [a[i]];
    assert ReplaceFrom(m, s, i, token) == [s[i]] + (x + rest);
    assert ReplaceFrom(m, a, i, token) == c + x;
    assert [s[i]] == c;
    assert c + (x + rest) == (c + x) + rest;
  }


  /**
   * When the matches in `s` from position `d` on are those of `s[d..]` alone,
   * the rewrite of `s` from `d` is the rewrite of `s[d..]`.
   */
  lemma {:induction false} RewriteSuffix(m: Matcher, s: string, d: nat, j: nat, token: string)
    requires Advances(m)
    requires d <= |s|
    requires forall k :: 0 <= k < |s| - d ==> m(s, d + k) == m(s[d..], k)
    ensures ReplaceFrom(m, s, d + j, token) == ReplaceFrom(m, s[d..], j, token)
    decreases |s| - d - j
  {
    if d + j < |s| {
      assert s[d + j] == s[d..][j] && m(s, d + j) == m(s[d..], j);
      match m(s, d + j)
      case Some(n) =>
        assert ReplaceFrom(m, s, d + j, token) == token + ReplaceFrom(m, s, d + j + n, token);
        assert ReplaceFrom(m, s[d..], j, token) == token + ReplaceFrom(m, s[d..], j + n, token);
        RewriteSuffix(m, s, d, j + n, token);
      case None =>
        assert ReplaceFrom(m, s, d + j, token) == [s[d + j]] + ReplaceFrom(m, s, d + j + 1, token);
        assert ReplaceFrom(m, s[d..], j, token) == [s[d + j]] + ReplaceFrom(m, s[d..], j + 1, token);
        RewriteSuffix(m, s, d, j + 1, token);
    }
  }

  /**
   * A piece `mid` in which no match starts, and which neither side's matches can
   * see past, splits the rewrite in three: each side is rewritten as if it stood
   * alone and `mid` is kept as it is.
   */
  lemma SplitAround(m: Matcher, a: string, mid: string, b: string, token: string)
    requires Advances(m)
    requires forall k :: 0 <= k < |a| ==> m(a + mid + b, k) == m(a, k)
    requires NoMatchIn(m, a + mid + b, |a|, |a| + |mid|)
    requires forall k :: 0 <= k < |b| ==> m(a + mid + b, |a| + |mid| + k) == m(b, k)
    ensures ReplaceAll(m, a + mid + b, token) == ReplaceAll(m, a, token) + mid + ReplaceAll(m, b, token)
  {
    var s := a + mid + b;
    assert s[..|a|] == a;
    RewritePrefix(m, s, a, 0, token);
    CopyUnmatched(m, s, |a|, |a| + |mid|, token);
    assert s[|a|..|a| + |mid|] == mid;
    assert s[|a| + |mid|..] == b;
    RewriteSuffix(m, s, |a| + |mid|, 0, token);
  }
}
