/**
 * The seven fixed patterns of `normalize_log_line`, each as a hand-written
 * matcher `MatchAt(p, s, i)` that gives the length of the match Python's `re`
 * finds when it tries pattern `p` at position `i` of `s` (greedy quantifiers,
 * alternatives tried in order, backtracking), or `None`.
 *
 * The matchers read the whole line, not a suffix: the word boundary of the
 * IPv4 pattern looks at the character before `i`, as `re.sub` does.
 */
module Patterns {
  import opened Text

  /** One character position of a fixed-width pattern. */
  datatype Atom = Digit | Hex | Word | Space | PathChar | Dash | Colon | Slash | Dot | Comma | TOrSpace

  predicate Matches(a: Atom, c: char) {
    match a
    case Digit => IsDigit(c)
    case Hex => IsHex(c)
    case Word => IsWord(c)
    case Space => IsSpace(c)
    case PathChar => IsPathChar(c)
    case Dash => c == '-'
    case Colon => c == ':'
    case Slash => c == '/'
    case Dot => c == '.'
    case Comma => c == ','
    case TOrSpace => c == 'T' || IsSpace(c)
  }

  /** The atoms match the characters of `s` from position `i` on, one each. */
  predicate FixedAt(s: string, i: nat, atoms: seq<Atom>)
    ensures FixedAt(s, i, atoms) ==> i + |atoms| <= |s|
    decreases |atoms|
  {
    if |atoms| == 0 then i <= |s|
    else i < |s| && Matches(atoms[0], s[i]) && FixedAt(s, i + 1, atoms[1..])
  }

  /** `FixedAt` holds exactly when every atom matches the character it stands for. */
  lemma {:induction false} FixedAtSpec(s: string, i: nat, atoms: seq<Atom>)
    ensures FixedAt(s, i, atoms) <==>
              i + |atoms| <= |s| && forall j :: 0 <= j < |atoms| ==> Matches(atoms[j], s[i + j])
    decreases |atoms|
  {
    if |atoms| > 0 {
      FixedAtSpec(s, i + 1, atoms[1..]);
      assert forall j :: 1 <= j < |atoms| ==> atoms[1..][j - 1] == atoms[j];
    }
  }

  /** `s[k] == c`, false when `k` is outside `s` */
  predicate CharIs(s: string, k: int, c: char) {
    0 <= k < |s| && s[k] == c
  }

  /** `s[k]` is a word character, false when `k` is outside `s` */
  predicate WordAt(s: string, k: int) {
    0 <= k < |s| && IsWord(s[k])
  }

  /** `\b` at position `k` (between `s[k-1]` and `s[k]`) */
  predicate BoundaryAt(s: string, k: int) {
    WordAt(s, k - 1) != WordAt(s, k)
  }

  /** Length of the longest run of characters matching `a` from position `i`. */
  function Run(s: string, i: nat, a: Atom): (n: nat)
    ensures n > 0 ==> i + n <= |s| && Matches(a, s[i])
    decreases |s| - i
  {
    if i < |s| && Matches(a, s[i]) then 1 + Run(s, i + 1, a) else 0
  }

  /** `Run` is the longest run: every character in it matches, and the one after it does not. */
  lemma {:induction false} RunSpec(s: string, i: nat, a: Atom)
    ensures forall k :: i <= k < i + Run(s, i, a) ==> Matches(a, s[k])
    ensures i + Run(s, i, a) < |s| ==> !Matches(a, s[i + Run(s, i, a)])
    decreases |s| - i
  {
    if i < |s| && Matches(a, s[i]) {
      RunSpec(s, i + 1, a);
    }
  }

  /** The run from `i` is `n` long when its `n` characters match and the next one does not. */
  lemma {:induction false} RunExact(s: string, i: nat, a: Atom, n: nat)
    requires i + n <= |s|
    requires forall k :: i <= k < i + n ==> Matches(a, s[k])
    requires i + n < |s| ==> !Matches(a, s[i + n])
    ensures Run(s, i, a) == n
    decreases n
  {
    if n > 0 {
      RunExact(s, i + 1, a, n - 1);
    }
  }

  // ---------------------------------------------------------------------
  // Fixed-width parts of the patterns
  // ---------------------------------------------------------------------

  /** `\d{2}:\d{2}:\d{2}` */
  const Clock: seq<Atom> := [Digit, Digit, Colon, Digit, Digit, Colon, Digit, Digit]

  /** `\d{4}-\d{2}-\d{2}[T\s]\d{2}:\d{2}:\d{2}` */
  const IsoStem: seq<Atom> :=
    [Digit, Digit, Digit, Digit, Dash, Digit, Digit, Dash, Digit, Digit, TOrSpace] + Clock

  /** `\d{2}/\d{2}/\d{4}\s\d{2}:\d{2}:\d{2}` */
  const SlashStamp: seq<Atom> :=
    [Digit, Digit, Slash, Digit, Digit, Slash, Digit, Digit, Digit, Digit, Space] + Clock

  /** `\w{3}\s\w{3}\s` */
  const SyslogHead: seq<Atom> := [Word, Word, Word, Space, Word, Word, Word, Space]

  const Hex4: seq<Atom> := [Hex, Hex, Hex, Hex]

  /** `[0-9a-fA-F]{8}-[0-9a-fA-F]{4}-[0-9a-fA-F]{4}-[0-9a-fA-F]{4}-[0-9a-fA-F]{12}` */
  const UuidShape: seq<Atom> :=
    Hex4 + Hex4 + [Dash] + Hex4 + [Dash] + Hex4 + [Dash] + Hex4 + [Dash] + Hex4 + Hex4 + Hex4

  /** The extensions of the file-location pattern, in the order of its alternation. */
  const SourceExtensions: seq<string> := ["py", "java", "go", "js", "php", "rb", "cpp", "c", "h", "cs"]

  // ---------------------------------------------------------------------
  // The seven matchers (log_parser/log_parser.py:15-29)
  // ---------------------------------------------------------------------

  datatype Pattern =
    | IsoTimestamp     // line 15
    | SlashTimestamp   // line 16
    | SyslogTimestamp  // line 17
    | Uuid             // line 20
    | Ipv4             // line 23
    | FileLocation     // line 26
    | Whitespace       // line 29, `\s+`

  /** The characters a match of `p` can start with. */
  predicate CanStart(p: Pattern, c: char) {
    match p
    case IsoTimestamp => IsDigit(c)
    case SlashTimestamp => IsDigit(c)
    case SyslogTimestamp => IsWord(c)
    case Uuid => IsHex(c)
    case Ipv4 => IsDigit(c)
    case FileLocation => c == '(' || IsPathChar(c)
    case Whitespace => IsSpace(c)
  }

  /** `n` characters from `i` are inside `s`, and a match of `p` can start with the first. */
  predicate Fits(p: Pattern, s: string, i: nat, n: nat) {
    i < |s| && 0 < n && i + n <= |s| && CanStart(p, s[i]) && (IsSpace(s[i]) <==> p == Whitespace)
  }

  /**
   * `(,\d{3}|\.\d{3})?Z?` after the 19 fixed characters: nothing follows in the
   * pattern, so the greedy choices are never undone.
   */
  function IsoTimestampAt(s: string, i: nat): (r: Option<nat>)
    ensures r.Some? ==> Fits(IsoTimestamp, s, i, r.value)
  {
    if !FixedAt(s, i, IsoStem) then None
    else
      var j := i + |IsoStem|;
      var fraction := if FixedAt(s, j, [Comma, Digit, Digit, Digit]) || FixedAt(s, j, [Dot, Digit, Digit, Digit]) then 4 else 0;
      var zulu := if CharIs(s, j + fraction, 'Z') then 1 else 0;
      Some(|IsoStem| + fraction + zulu)
  }

  function SlashTimestampAt(s: string, i: nat): (r: Option<nat>)
    ensures r.Some? ==> Fits(SlashTimestamp, s, i, r.value)
  {
    if FixedAt(s, i, SlashStamp) then Some(|SlashStamp|) else None
  }

  /**
   * `\w{3}\s\w{3}\s\d{1,2}\s\d{2}:\d{2}:\d{2}`: the greedy `\d{1,2}` first tries
   * two digits and falls back to one.  No word boundary is required, so the
   * `\w{3}` may start in the middle of a word.
   */
  function SyslogTimestampAt(s: string, i: nat): (r: Option<nat>)
    ensures r.Some? ==> Fits(SyslogTimestamp, s, i, r.value)
  {
    if !FixedAt(s, i, SyslogHead) then None
    else if FixedAt(s, i + |SyslogHead|, [Digit, Digit, Space] + Clock) then Some(|SyslogHead| + 11)
    else if FixedAt(s, i + |SyslogHead|, [Digit, Space] + Clock) then Some(|SyslogHead| + 10)
    else None
  }

  function UuidAt(s: string, i: nat): (r: Option<nat>)
    ensures r.Some? ==> Fits(Uuid, s, i, r.value)
  {
    if FixedAt(s, i, UuidShape) then Some(|UuidShape|) else None
  }

  /**
   * `\d{1,3}\.` from position `k`; gives the position after the dot.  When the
   * digit run is longer than three, or is not followed by `.`, no shorter
   * choice of `\d{1,3}` can be followed by `.` either (the next character is a
   * digit), so taking the whole run is what backtracking comes to.
   */
  function DottedGroup(s: string, k: nat): (r: Option<nat>)
    ensures r.Some? ==> k + 2 <= r.value <= |s| && IsDigit(s[k]) && s[r.value - 1] == '.'
  {
    var n := Run(s, k, Digit);
    if 1 <= n <= 3 && CharIs(s, k + n, '.') then Some(k + n + 1) else None
  }

  /** `\d{1,3}\b` from position `k`; gives the position after the digits. */
  function FinalGroup(s: string, k: nat): (r: Option<nat>)
    ensures r.Some? ==> k < r.value <= |s| && IsDigit(s[k])
  {
    var n := Run(s, k, Digit);
    if 1 <= n <= 3 && BoundaryAt(s, k + n) then Some(k + n) else None
  }

  /** `\d{1,3}\.\d{1,3}\b` from position `k`; gives the position after the last digit. */
  function TwoGroups(s: string, k: nat): (r: Option<nat>)
    ensures r.Some? ==> k < r.value <= |s|
  {
    match DottedGroup(s, k)
    case None => None
    case Some(k1) => FinalGroup(s, k1)
  }

  /** `\d{1,3}\.\d{1,3}\.\d{1,3}\b` from position `k` */
  function ThreeGroups(s: string, k: nat): (r: Option<nat>)
    ensures r.Some? ==> k < r.value <= |s|
  {
    match DottedGroup(s, k)
    case None => None
    case Some(k1) => TwoGroups(s, k1)
  }

  /** `\d{1,3}\.\d{1,3}\.\d{1,3}\.\d{1,3}\b` from position `k` */
  function FourGroups(s: string, k: nat): (r: Option<nat>)
    ensures r.Some? ==> k < r.value <= |s| && IsDigit(s[k])
  {
    match DottedGroup(s, k)
    case None => None
    case Some(k1) => ThreeGroups(s, k1)
  }

  /** `\b\d{1,3}\.\d{1,3}\.\d{1,3}\.\d{1,3}\b` */
  function Ipv4At(s: string, i: nat): (r: Option<nat>)
    ensures r.Some? ==> Fits(Ipv4, s, i, r.value)
  {
    if !BoundaryAt(s, i) then None
    else match FourGroups(s, i)
      case None => None
      case Some(e) => Some(e - i)
  }

  /** `run` ends with `.ext` for an extension `ext` in `exts`, with at least one character before the dot. */
  predicate EndsWithExtension(run: string, exts: seq<string>)
    ensures EndsWithExtension(run, exts) ==> |run| >= 2
    decreases |exts|
  {
    |exts| > 0 &&
    ((|run| >= |exts[0]| + 2 && run[|run| - |exts[0]| - 1] == '.' && run[|run| - |exts[0]|..] == exts[0])
     || EndsWithExtension(run, exts[1..]))
  }

  /**
   * `\(?([a-zA-Z0-9_/\.-]+\.(py|java|...|cs):(\d+))\)?`.  The path class does not
   * hold `:`, while `.` and the letters of every extension are in it, so
   * whatever the backtracking, the `:` must come right after the longest path
   * run from the start; that run must end in `.ext`.  If the greedy `\(?` takes
   * a `(`, not taking it cannot help, since `(` is not in the path class.
   */
  function FileLocationAt(s: string, i: nat): Option<nat> {
    if i >= |s| then None
    else LocationFrom(s, i, PathStart(s, i), PathStart(s, i) + Run(s, PathStart(s, i), PathChar))
  }

  lemma FileLocationFits(s: string, i: nat)
    ensures FileLocationAt(s, i).Some? ==> Fits(FileLocation, s, i, FileLocationAt(s, i).value)
  {
  }

  /** `FileLocationAt` once the path run `s[p..e]` is known. */
  lemma FileLocationAtRun(s: string, i: nat, p: nat, e: nat)
    requires i < |s| && PathStart(s, i) == p && p + Run(s, p, PathChar) == e
    ensures FileLocationAt(s, i) == LocationFrom(s, i, p, e)
  {
  }

  /** Where the path starts: after the optional `(`. */
  function PathStart(s: string, i: nat): (p: nat)
    requires i < |s|
    ensures i <= p <= |s|
  {
    if CharIs(s, i, '(') then i + 1 else i
  }

  /** The rest of the file-location match, once the path run `s[p..e]` is known. */
  function LocationFrom(s: string, i: nat, p: nat, e: nat): Option<nat>
    requires i <= p <= e <= |s|
  {
    if !EndsWithExtension(s[p..e], SourceExtensions) then None
    else match LineNumberEnd(s, e)
      case None => None
      case Some(end) => Some(end - i + (if CharIs(s, end, ')') then 1 else 0))
  }

  /** `:(\d+)` from position `e`; gives the position after the digits. */
  function LineNumberEnd(s: string, e: nat): (r: Option<nat>)
    ensures r.Some? ==> e + 2 <= r.value <= |s| && s[e] == ':'
  {
    if !CharIs(s, e, ':') then None
    else
      var d := Run(s, e + 1, Digit);
      if d == 0 then None else Some(e + 1 + d)
  }

  // ---------------------------------------------------------------------
  // What the IPv4 and file-location matchers accept, stated without runs
  // ---------------------------------------------------------------------

  /** `s[a..b]` is one `\d{1,3}`. */
  predicate DigitGroup(s: string, a: nat, b: nat) {
    a < b <= |s| && b - a <= 3 && AllDigits(s[a..b])
  }

  predicate AllDigits(t: string) {
    forall k :: 0 <= k < |t| ==> IsDigit(t[k])
  }

  /** `s[i..e]` is `\d{1,3}\.\d{1,3}\.\d{1,3}\.\d{1,3}` with its dots at `d1`, `d2` and `d3`. */
  predicate QuadAt(s: string, i: nat, d1: nat, d2: nat, d3: nat, e: nat) {
    DigitGroup(s, i, d1) && CharIs(s, d1, '.') &&
    DigitGroup(s, d1 + 1, d2) && CharIs(s, d2, '.') &&
    DigitGroup(s, d2 + 1, d3) && CharIs(s, d3, '.') &&
    DigitGroup(s, d3 + 1, e)
  }

  /** `s[i..e]` is a match of `\b\d{1,3}\.\d{1,3}\.\d{1,3}\.\d{1,3}\b`, read position by position. */
  ghost predicate AddressSpan(s: string, i: nat, e: nat) {
    BoundaryAt(s, i) && BoundaryAt(s, e) && exists d1, d2, d3 :: QuadAt(s, i, d1, d2, d3, e)
  }

  lemma DottedGroupSpec(s: string, k: nat, d: nat)
    ensures DottedGroup(s, k) == Some(d + 1) <==> DigitGroup(s, k, d) && CharIs(s, d, '.')
  {
    RunSpec(s, k, Digit);
    if DigitGroup(s, k, d) && CharIs(s, d, '.') {
      assert forall j :: k <= j < d ==> s[k..d][j - k] == s[j];
      RunExact(s, k, Digit, d - k);
    }
  }

  lemma FinalGroupSpec(s: string, k: nat, e: nat)
    ensures FinalGroup(s, k) == Some(e) <==> DigitGroup(s, k, e) && BoundaryAt(s, e)
  {
    RunSpec(s, k, Digit);
    if DigitGroup(s, k, e) && BoundaryAt(s, e) {
      assert forall j :: k <= j < e ==> s[k..e][j - k] == s[j];
      assert WordAt(s, e - 1);
      RunExact(s, k, Digit, e - k);
    }
  }

  lemma Ipv4Complete(s: string, i: nat, d1: nat, d2: nat, d3: nat, e: nat)
    requires BoundaryAt(s, i) && QuadAt(s, i, d1, d2, d3, e) && BoundaryAt(s, e)
    ensures Ipv4At(s, i) == Some(e - i)
  {
    QuadGroups(s, i, d1, d2, d3, e);
  }

  lemma QuadGroups(s: string, i: nat, d1: nat, d2: nat, d3: nat, e: nat)
    requires QuadAt(s, i, d1, d2, d3, e) && BoundaryAt(s, e)
    ensures FourGroups(s, i) == Some(e)
  {
    FinalGroupSpec(s, d3 + 1, e);
    TwoGroupsOf(s, d2 + 1, d3, e);
    ThreeGroupsOf(s, d1 + 1, d2, e);
    FourGroupsOf(s, i, d1, e);
  }

  lemma TwoGroupsOf(s: string, k: nat, d: nat, e: nat)
    requires DigitGroup(s, k, d) && CharIs(s, d, '.') && FinalGroup(s, d + 1) == Some(e)
    ensures TwoGroups(s, k) == Some(e)
  {
    DottedGroupSpec(s, k, d);
  }

  lemma ThreeGroupsOf(s: string, k: nat, d: nat, e: nat)
    requires DigitGroup(s, k, d) && CharIs(s, d, '.') && TwoGroups(s, d + 1) == Some(e)
    ensures ThreeGroups(s, k) == Some(e)
  {
    DottedGroupSpec(s, k, d);
  }

  lemma FourGroupsOf(s: string, k: nat, d: nat, e: nat)
    requires DigitGroup(s, k, d) && CharIs(s, d, '.') && ThreeGroups(s, d + 1) == Some(e)
    ensures FourGroups(s, k) == Some(e)
  {
    DottedGroupSpec(s, k, d);
  }

  lemma Ipv4Sound(s: string, i: nat, n: nat)
    requires Ipv4At(s, i) == Some(n)
    ensures AddressSpan(s, i, i + n)
  {
    QuadOfGroups(s, i, i + n);
  }

  /** The groups `FourGroups` has taken, with the positions of their dots. */
  lemma QuadOfGroups(s: string, i: nat, e: nat)
    requires FourGroups(s, i) == Some(e)
    ensures BoundaryAt(s, e) && exists d1, d2, d3 :: QuadAt(s, i, d1, d2, d3, e)
  {
    var k1 := DottedGroup(s, i).value;
    var k2 := DottedGroup(s, k1).value;
    var k3 := DottedGroup(s, k2).value;
    DottedGroupSpec(s, i, k1 - 1);
    DottedGroupSpec(s, k1, k2 - 1);
    DottedGroupSpec(s, k2, k3 - 1);
    FinalGroupSpec(s, k3, e);
    assert QuadAt(s, i, k1 - 1, k2 - 1, k3 - 1, e);
  }

  /**
   * `Ipv4At` finds a match of length `n` exactly when `s[i..i+n]` spells the
   * pattern.  So there is at most one such `n`, and backtracking has no other
   * match to offer.
   */
  lemma Ipv4AtSpec(s: string, i: nat, n: nat)
    ensures Ipv4At(s, i) == Some(n) <==> AddressSpan(s, i, i + n)
  {
    if Ipv4At(s, i) == Some(n) {
      Ipv4Sound(s, i, n);
    }
    if AddressSpan(s, i, i + n) {
      Ipv4FromSpan(s, i, i + n);
    }
  }

  lemma Ipv4FromSpan(s: string, i: nat, e: nat)
    requires AddressSpan(s, i, e)
    ensures Ipv4At(s, i) == Some(e - i)
  {
    var d1, d2, d3 :| QuadAt(s, i, d1, d2, d3, e);
    Ipv4Complete(s, i, d1, d2, d3, e);
  }

  /**
   * `s[i..]` starts with a match of the file-location pattern whose colon is at
   * `c` and whose line number ends at `d`, read position by position with the
   * greedy choices of `re`: a `(` is taken when there is one, and the line
   * number is the whole digit run.  Between the start and the colon there are
   * only path characters, and they end in a listed extension.
   */
  predicate LocationSpan(s: string, i: nat, c: nat, d: nat) {
    var p := if CharIs(s, i, '(') then i + 1 else i;
    p <= c < d <= |s| &&
    AllPathChars(s[p..c]) &&
    EndsWithExtension(s[p..c], SourceExtensions) &&
    s[c] == ':' &&
    c + 1 < d && AllDigits(s[c + 1..d]) &&
    (d < |s| ==> !IsDigit(s[d]))
  }

  predicate AllPathChars(t: string) {
    forall k :: 0 <= k < |t| ==> IsPathChar(t[k])
  }

  /** Where the match ends: after the line number, and after a `)` that follows it. */
  function LocationEnd(s: string, d: nat): (end: nat)
    ensures end == d || (end == d + 1 && CharIs(s, d, ')'))
  {
    if CharIs(s, d, ')') then d + 1 else d
  }

  lemma FileLocationComplete(s: string, i: nat, c: nat, d: nat)
    requires LocationSpan(s, i, c, d)
    ensures FileLocationAt(s, i) == Some(LocationEnd(s, d) - i)
  {
    var p := PathStart(s, i);
    LocationRunsExact(s, p, c, d);
    FileLocationAtRun(s, i, p, c);
    LocationFromOf(s, i, p, c, d);
  }

  /** `LocationFrom` once the extension and the line number are known. */
  lemma LocationFromOf(s: string, i: nat, p: nat, c: nat, d: nat)
    requires i <= p <= c <= |s| && EndsWithExtension(s[p..c], SourceExtensions) && LineNumberEnd(s, c) == Some(d)
    ensures LocationFrom(s, i, p, c) == Some(LocationEnd(s, d) - i)
  {
  }

  /** Path characters up to a `:` at `c`, then a whole digit run up to `d`: the runs and the line number `LocationFrom` finds. */
  lemma LocationRunsExact(s: string, p: nat, c: nat, d: nat)
    requires p <= c < d <= |s| && c + 1 < d && s[c] == ':'
    requires AllPathChars(s[p..c]) && AllDigits(s[c + 1..d])
    requires d < |s| ==> !IsDigit(s[d])
    ensures p + Run(s, p, PathChar) == c
    ensures LineNumberEnd(s, c) == Some(d)
  {
    assert forall k :: p <= k < c ==> s[p..c][k - p] == s[k];
    assert forall k :: c < k < d ==> s[c + 1..d][k - c - 1] == s[k];
    RunExact(s, p, PathChar, c - p);
    RunExact(s, c + 1, Digit, d - c - 1);
  }

  lemma FileLocationSound(s: string, i: nat)
    requires FileLocationAt(s, i).Some?
    ensures exists c, d :: LocationSpan(s, i, c, d) && i + FileLocationAt(s, i).value == LocationEnd(s, d)
  {
    var p := PathStart(s, i);
    var c := p + Run(s, p, PathChar);
    FileLocationAtRun(s, i, p, c);
    var d := LineNumberEnd(s, c).value;
    LocationFromParts(s, i, p, c);
    LocationRuns(s, p, c, d);
    assert LocationSpan(s, i, c, d);
  }

  /** The path run `s[p..c]` and the line number `s[c+1..d]` are whole runs. */
  lemma LocationRuns(s: string, p: nat, c: nat, d: nat)
    requires c == p + Run(s, p, PathChar) && LineNumberEnd(s, c) == Some(d)
    ensures AllPathChars(s[p..c]) && AllDigits(s[c + 1..d])
    ensures d < |s| ==> !IsDigit(s[d])
  {
    RunSpec(s, p, PathChar);
    RunSpec(s, c + 1, Digit);
  }

  /** What a successful `LocationFrom` has found. */
  lemma LocationFromParts(s: string, i: nat, p: nat, c: nat)
    requires i <= p <= c <= |s| && LocationFrom(s, i, p, c).Some?
    ensures EndsWithExtension(s[p..c], SourceExtensions)
    ensures LineNumberEnd(s, c).Some?
    ensures i + LocationFrom(s, i, p, c).value == LocationEnd(s, LineNumberEnd(s, c).value)
  {
  }

  /** `FileLocationAt` finds a match of length `n` exactly when `s[i..i+n]` spells the pattern with the greedy choices. */
  lemma FileLocationAtSpec(s: string, i: nat, n: nat)
    ensures FileLocationAt(s, i) == Some(n) <==>
              exists c, d :: LocationSpan(s, i, c, d) && i + n == LocationEnd(s, d)
  {
    if FileLocationAt(s, i) == Some(n) {
      FileLocationSound(s, i);
    }
    if exists c, d :: LocationSpan(s, i, c, d) && i + n == LocationEnd(s, d) {
      var c, d :| LocationSpan(s, i, c, d) && i + n == LocationEnd(s, d);
      FileLocationComplete(s, i, c, d);
    }
  }

  /** `\s+` */
  function WhitespaceAt(s: string, i: nat): (r: Option<nat>)
    ensures r.Some? ==> Fits(Whitespace, s, i, r.value)
  {
    var n := Run(s, i, Space);
    if n > 0 then Some(n) else None
  }

  /** `\s+` takes the whole whitespace run from `i`, and there is a match exactly when that run is non-empty. */
  lemma WhitespaceAtSpec(s: string, i: nat, n: nat)
    ensures WhitespaceAt(s, i) == Some(n) <==>
              0 < n && i + n <= |s| && (forall k :: i <= k < i + n ==> IsSpace(s[k])) &&
              (i + n < |s| ==> !IsSpace(s[i + n]))
  {
    RunSpec(s, i, Space);
    if 0 < n && i + n <= |s| && (forall k :: i <= k < i + n ==> IsSpace(s[k])) && (i + n < |s| ==> !IsSpace(s[i + n])) {
      RunExact(s, i, Space, n);
    }
  }

  /**
   * The match of pattern `p` that starts at position `i` of `s`, as its length.
   * Every match is non-empty and inside `s` and starts with a character the
   * pattern can start with; only the whitespace pattern can start at a
   * whitespace character.
   */
  function MatchAt(p: Pattern, s: string, i: nat): (m: Option<nat>)
    ensures m.Some? ==> Fits(p, s, i, m.value)
  {
    match p
    case IsoTimestamp => IsoTimestampAt(s, i)
    case SlashTimestamp => SlashTimestampAt(s, i)
    case SyslogTimestamp => SyslogTimestampAt(s, i)
    case Uuid => UuidAt(s, i)
    case Ipv4 => Ipv4At(s, i)
    case FileLocation => FileLocationFits(s, i); FileLocationAt(s, i)
    case Whitespace => WhitespaceAt(s, i)
  }

  /** `c` is a character every match of `p` holds; `\s+` has none. */
  predicate IsLandmark(p: Pattern, c: char) {
    match p
    case IsoTimestamp => c == '-' || c == ':'
    case SlashTimestamp => c == '/' || c == ':'
    case SyslogTimestamp => c == ':'
    case Uuid => c == '-'
    case Ipv4 => c == '.'
    case FileLocation => c == '.' || c == ':'
    case Whitespace => false
  }

  /** Every match holds every landmark of its pattern. */
  lemma MatchHoldsLandmark(p: Pattern, s: string, i: nat, c: char)
    requires IsLandmark(p, c) && MatchAt(p, s, i).Some?
    ensures exists k :: i <= k < i + MatchAt(p, s, i).value && s[k] == c
  {
    match p
    case IsoTimestamp =>
      FixedAtSpec(s, i, IsoStem);
      assert FixedAt(s, i, IsoStem) && IsoStem[4] == Dash && IsoStem[13] == Colon;
      assert s[i + 4] == '-' && s[i + 13] == ':';
    case SlashTimestamp =>
      FixedAtSpec(s, i, SlashStamp);
      assert FixedAt(s, i, SlashStamp) && SlashStamp[2] == Slash && SlashStamp[13] == Colon;
      assert s[i + 2] == '/' && s[i + 13] == ':';
    case SyslogTimestamp => SyslogLandmark(s, i);
    case Uuid =>
      FixedAtSpec(s, i, UuidShape);
      assert FixedAt(s, i, UuidShape) && UuidShape[8] == Dash;
      assert s[i + 8] == '-';
    case Ipv4 =>
      var k1 := DottedGroup(s, i).value;
      assert s[k1 - 1] == '.';
    case FileLocation => FileLocationLandmarks(s, i);
  }

  lemma SyslogLandmark(s: string, i: nat)
    requires SyslogTimestampAt(s, i).Some?
    ensures exists k :: i <= k < i + SyslogTimestampAt(s, i).value && s[k] == ':'
  {
    var twoDigits := [Digit, Digit, Space] + Clock;
    var oneDigit := [Digit, Space] + Clock;
    FixedAtSpec(s, i + |SyslogHead|, twoDigits);
    FixedAtSpec(s, i + |SyslogHead|, oneDigit);
    if FixedAt(s, i + |SyslogHead|, twoDigits) {
      assert twoDigits[5] == Colon;
      assert s[i + 13] == ':';
    } else {
      assert oneDigit[4] == Colon;
      assert s[i + 12] == ':';
    }
  }

  lemma FileLocationLandmarks(s: string, i: nat)
    requires FileLocationAt(s, i).Some?
    ensures exists k :: i <= k < i + FileLocationAt(s, i).value && s[k] == '.'
    ensures exists k :: i <= k < i + FileLocationAt(s, i).value && s[k] == ':'
  {
    var p := PathStart(s, i);
    var e := p + Run(s, p, PathChar);
    FileLocationAtRun(s, i, p, e);
    LocationFromParts(s, i, p, e);
    ExtensionHasDot(s[p..e], SourceExtensions);
    var k :| 0 <= k < e - p && s[p..e][k] == '.';
    assert s[p + k] == '.';
    assert s[e] == ':';
  }

  lemma {:induction false} ExtensionHasDot(run: string, exts: seq<string>)
    requires EndsWithExtension(run, exts)
    ensures exists k :: 0 <= k < |run| && run[k] == '.'
    decreases |exts|
  {
    if |run| >= |exts[0]| + 2 && run[|run| - |exts[0]| - 1] == '.' {
    } else {
      ExtensionHasDot(run, exts[1..]);
    }
  }

  /** The shortest match each pattern can have. */
  function MinLength(p: Pattern): nat {
    match p
    case IsoTimestamp => |IsoStem|
    case SlashTimestamp => |SlashStamp|
    case SyslogTimestamp => |SyslogHead| + 10
    case Uuid => |UuidShape|
    case Ipv4 => 7
    case FileLocation => 5
    case Whitespace => 1
  }

  lemma MatchMinLength(p: Pattern, s: string, i: nat)
    requires MatchAt(p, s, i).Some?
    ensures MatchAt(p, s, i).value >= MinLength(p)
  {
    if p == FileLocation {
      FileLocationMinLength(s, i);
    }
  }

  /** The shortest file location is a character, `.`, a one-letter extension, `:` and a digit. */
  lemma FileLocationMinLength(s: string, i: nat)
    requires FileLocationAt(s, i).Some?
    ensures FileLocationAt(s, i).value >= 5
  {
    var p := PathStart(s, i);
    var e := p + Run(s, p, PathChar);
    FileLocationAtRun(s, i, p, e);
    ExtensionsNonEmpty();
    ExtensionRunLength(s[p..e], SourceExtensions);
  }

  lemma ExtensionsNonEmpty()
    ensures forall i :: 0 <= i < |SourceExtensions| ==> |SourceExtensions[i]| >= 1
  {
  }

  /** A path run ending in a listed extension has a character, the dot and at least one letter. */
  lemma {:induction false} ExtensionRunLength(run: string, exts: seq<string>)
    requires EndsWithExtension(run, exts)
    requires forall k :: 0 <= k < |exts| ==> |exts[k]| >= 1
    ensures |run| >= 3
    decreases |exts|
  {
    if !(|run| >= |exts[0]| + 2 && run[|run| - |exts[0]| - 1] == '.' && run[|run| - |exts[0]|..] == exts[0]) {
      ExtensionRunLength(run, exts[1..]);
    }
  }

  /** No match of `p` starts where fewer than `MinLength(p)` characters are left. */
  lemma NoRoomNoMatch(p: Pattern, s: string, i: nat)
    requires |s| < i + MinLength(p)
    ensures MatchAt(p, s, i) == None
  {
    if MatchAt(p, s, i).Some? {
      MatchMinLength(p, s, i);
    }
  }

  /** No match of `p` starts at a character `p` cannot start with. */
  lemma NoStartNoMatch(p: Pattern, s: string, i: nat, j: nat)
    requires forall k :: i <= k < j && k < |s| ==> !CanStart(p, s[k])
    ensures forall k :: i <= k < j ==> MatchAt(p, s, k) == None
  {
  }

  /** No match of `p` starts in a stretch of text, running to the end, without a landmark of `p`. */
  lemma NoLandmarkNoMatch(p: Pattern, s: string, i: nat, c: char)
    requires IsLandmark(p, c)
    requires forall k :: i <= k < |s| ==> s[k] != c
    ensures forall k :: i <= k ==> MatchAt(p, s, k) == None
  {
    forall k | i <= k
      ensures MatchAt(p, s, k) == None
    {
      if MatchAt(p, s, k).Some? {
        MatchHoldsLandmark(p, s, k, c);
      }
    }
  }
}
