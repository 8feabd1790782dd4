/**
 * `find_anomalous_errors`: read the log line by line; keep the lines that
 * hold an error keyword in any letter case; count them by their normalised
 * form; report the `top_n` most frequent forms, or that there were none.
 *
 * Opening and reading the file are the caller's: the log arrives as a
 * `LogSource`, either its lines (each with its line terminator, as Python's
 * file iteration yields them) or the failure that stopped the read.  What
 * the function prints is returned as a `Report`.
 */
module Aggregator {
  import opened Text
  import opened Normalizer
  import opened Ranking

  // ---------------------------------------------------------------------
  // Which lines count as errors
  // ---------------------------------------------------------------------

  const Keywords: seq<string> :=
    ["ERROR", "FAILURE", "FAILED", "EXCEPTION", "CRITICAL", "DENIED", "TIMEOUT", "REFUSED"]

  /** `sub in s` for strings */
  predicate Occurs(sub: string, s: string) {
    exists i :: 0 <= i <= |s| && sub <= s[i..]
  }

  /** `any(keyword in line.upper() for keyword in error_keywords)` */
  predicate IsErrorLine(line: string) {
    exists k :: 0 <= k < |Keywords| && Occurs(Keywords[k], Upper(line))
  }

  /** `line.upper().upper() == line.upper()` */
  lemma UpperTwice(line: string)
    ensures Upper(Upper(line)) == Upper(line)
  {
    var u := Upper(line);
    assert forall k :: 0 <= k < |u| ==> UpperChar(u[k]) == u[k];
  }

  /** The keyword test ignores letter case: a line qualifies just when its upper-case form does. */
  lemma ErrorLineIgnoresCase(line: string)
    ensures IsErrorLine(Upper(line)) <==> IsErrorLine(line)
  {
    UpperTwice(line);
  }

  /** `s` holds the character `a` right before the character `b`. */
  predicate HasPair(s: string, a: char, b: char) {
    exists j :: 0 <= j < |s| - 1 && s[j] == a && s[j + 1] == b
  }

  /** A keyword holding a character the line lacks does not occur in it. */
  lemma AbsentChar(sub: string, s: string, c: char)
    requires c in sub && c !in s
    ensures !Occurs(sub, s)
  {
    var j :| 0 <= j < |sub| && sub[j] == c;
    forall i | 0 <= i <= |s|
      ensures !(sub <= s[i..])
    {
      assert i + j < |s| ==> s[i + j] != c;
    }
  }

  /** A keyword holding two adjacent characters the line never has side by side does not occur in it. */
  lemma AbsentPair(sub: string, s: string, a: char, b: char)
    requires HasPair(sub, a, b) && !HasPair(s, a, b)
    ensures !Occurs(sub, s)
  {
    var j :| 0 <= j < |sub| - 1 && sub[j] == a && sub[j + 1] == b;
    forall i | 0 <= i <= |s|
      ensures !(sub <= s[i..])
    {
      assert i + j + 1 < |s| ==> !(s[i + j] == a && s[i + j + 1] == b);
    }
  }

  const FailureMode: string := "failuremode"

  /** A keyword may sit inside a longer word: `failuremode` holds `FAILURE`. */
  lemma FailureModeIsError()
    ensures IsErrorLine(FailureMode)
  {
    var u := Upper(FailureMode);
    assert u[..7] == Keywords[1];
    assert Keywords[1] <= u[0..];
  }

  const ServiceStarted: string := "INFO Service started"
  const ServiceStartedUpper: string := "INFO SERVICE STARTED"

  lemma UpperServiceStarted()
    ensures Upper(ServiceStarted) == ServiceStartedUpper
  {
  }

  lemma ServiceStartedLacksLetters()
    ensures 'L' !in ServiceStartedUpper && 'X' !in ServiceStartedUpper
    ensures 'M' !in ServiceStartedUpper && 'U' !in ServiceStartedUpper
  {
  }

  lemma ServiceStartedLacksPairs()
    ensures !HasPair(ServiceStartedUpper, 'R', 'R') && !HasPair(ServiceStartedUpper, 'D', 'E')
  {
  }

  lemma KeywordLetters()
    ensures 'L' in Keywords[1] && 'L' in Keywords[2] && 'L' in Keywords[4]
    ensures 'X' in Keywords[3] && 'M' in Keywords[6] && 'U' in Keywords[7]
    ensures HasPair(Keywords[0], 'R', 'R') && HasPair(Keywords[5], 'D', 'E')
  {
    assert Keywords[0][1] == 'R' && Keywords[0][2] == 'R';
    assert Keywords[5][0] == 'D' && Keywords[5][1] == 'E';
  }

  /** A line without any keyword, in any case, is no error line. */
  lemma ServiceStartedIsNoError()
    ensures !IsErrorLine(ServiceStarted)
  {
    var u := Upper(ServiceStarted);
    UpperServiceStarted();
    ServiceStartedLacksLetters();
    ServiceStartedLacksPairs();
    KeywordLetters();
    forall k | 0 <= k < |Keywords|
      ensures !Occurs(Keywords[k], u)
    {
      if k == 0 {
        AbsentPair(Keywords[k], u, 'R', 'R');
      } else if k == 5 {
        AbsentPair(Keywords[k], u, 'D', 'E');
      } else if k == 3 {
        AbsentChar(Keywords[k], u, 'X');
      } else if k == 6 {
        AbsentChar(Keywords[k], u, 'M');
      } else if k == 7 {
        AbsentChar(Keywords[k], u, 'U');
      } else {
        AbsentChar(Keywords[k], u, 'L');
      }
    }
  }

  // ---------------------------------------------------------------------
  // What the counter should hold: specification over the qualifying lines
  // ---------------------------------------------------------------------

  /**
   * The keys the counter is given: the forms `normalize` gives the error
   * lines, in the order of the lines.  The normaliser is a parameter;
   * `FindAnomalousErrors` passes `Normalize`.
   */
  function ErrorKeys(lines: seq<string>, normalize: string -> string): (keys: seq<string>)
    ensures |keys| <= |lines|
  {
    if |lines| == 0 then []
    else
      var last := lines[|lines| - 1];
      ErrorKeys(lines[..|lines| - 1], normalize) + (if IsErrorLine(last) then [normalize(last)] else [])
  }

  /** `counts[key]`, a missing key counting 0 */
  function Get(counts: map<string, nat>, key: string): nat {
    if key in counts then counts[key] else 0
  }

  /** The counter after `counter[key] += 1` for every key of `keys` in turn. */
  function Tally(keys: seq<string>): map<string, nat> {
    if |keys| == 0 then map[]
    else
      var before := Tally(keys[..|keys| - 1]);
      var key := keys[|keys| - 1];
      before[key := Get(before, key) + 1]
  }

  /** The keys of `keys`, each once, in the order they first appear. */
  function FirstSeen(keys: seq<string>): seq<string> {
    if |keys| == 0 then []
    else
      var before := FirstSeen(keys[..|keys| - 1]);
      var key := keys[|keys| - 1];
      if key in before then before else before + [key]
  }

  predicate Distinct(s: seq<string>) {
    forall i, j :: 0 <= i < j < |s| ==> s[i] != s[j]
  }

  /** `counter.items()`: one entry per key of `order`, with its count. */
  function EntriesOf(order: seq<string>, counts: map<string, nat>): (r: seq<Entry>)
    ensures |r| == |order|
    ensures forall i :: 0 <= i < |r| ==> r[i] == Entry(order[i], Get(counts, order[i]))
  {
    if |order| == 0 then []
    else EntriesOf(order[..|order| - 1], counts) + [Entry(order[|order| - 1], Get(counts, order[|order| - 1]))]
  }

  /** The sum of the counts of `entries`. */
  function Total(entries: seq<Entry>): nat {
    if |entries| == 0 then 0
    else Total(entries[..|entries| - 1]) + entries[|entries| - 1].count
  }

  // ---------------------------------------------------------------------
  // Tally and FirstSeen against the keys they summarise
  // ---------------------------------------------------------------------

  /**
   * The counter holds exactly the keys seen, each with the number of times
   * it was seen, which is at least one.
   */
  lemma {:induction false} TallyCounts(keys: seq<string>)
    ensures forall key :: key in Tally(keys) <==> key in keys
    ensures forall key :: key in Tally(keys) ==> Tally(keys)[key] == multiset(keys)[key] >= 1
  {
    if |keys| > 0 {
      var front := keys[..|keys| - 1];
      TallyCounts(front);
      assert keys == front + [keys[|keys| - 1]];
    }
  }

  /** The first-seen order lists every key seen, each once. */
  lemma {:induction false} FirstSeenKeys(keys: seq<string>)
    ensures forall key :: key in FirstSeen(keys) <==> key in keys
    ensures Distinct(FirstSeen(keys))
  {
    if |keys| > 0 {
      var front := keys[..|keys| - 1];
      FirstSeenKeys(front);
      assert keys == front + [keys[|keys| - 1]];
    }
  }

  /** Position of the first occurrence of `key` in `keys`. */
  function FirstIndex(keys: seq<string>, key: string): (i: nat)
    requires key in keys
    ensures i < |keys| && keys[i] == key && key !in keys[..i]
  {
    if keys[0] == key then 0
    else
      assert keys == [keys[0]] + keys[1..];
      1 + FirstIndex(keys[1..], key)
  }

  lemma FirstIndexOfLonger(keys: seq<string>, more: seq<string>, key: string)
    requires key in keys
    ensures FirstIndex(keys + more, key) == FirstIndex(keys, key)
  {
    var i := FirstIndex(keys, key);
    var j := FirstIndex(keys + more, key);
    assert (keys + more)[i] == key;
  }

  /** The first-seen order is the order of first appearance in `keys`. */
  predicate InFirstAppearanceOrder(order: seq<string>, keys: seq<string>) {
    (forall i :: 0 <= i < |order| ==> order[i] in keys) &&
    forall i, j :: 0 <= i < j < |order| ==> FirstIndex(keys, order[i]) < FirstIndex(keys, order[j])
  }

  lemma FirstIndicesKept(front: seq<string>, key: string)
    ensures forall k :: k in front ==> FirstIndex(front + [key], k) == FirstIndex(front, k)
  {
    forall k | k in front
      ensures FirstIndex(front + [key], k) == FirstIndex(front, k)
    {
      FirstIndexOfLonger(front, [key], k);
    }
  }

  lemma NewKeyIndex(front: seq<string>, key: string)
    requires key !in front
    ensures FirstIndex(front + [key], key) == |front|
  {
  }

  lemma FirstSeenStep(front: seq<string>, key: string)
    requires InFirstAppearanceOrder(FirstSeen(front), front)
    ensures InFirstAppearanceOrder(FirstSeen(front + [key]), front + [key])
  {
    var keys := front + [key];
    var before := FirstSeen(front);
    TallySnoc(front, key);
    FirstIndicesKept(front, key);
    if key !in before {
      FirstSeenKeys(front);
      NewKeyIndex(front, key);
      var order := before + [key];
      forall i, j | 0 <= i < j < |order|
        ensures FirstIndex(keys, order[i]) < FirstIndex(keys, order[j])
      {
        assert order[i] == before[i];
        if j < |before| {
          assert order[j] == before[j];
        }
      }
    }
  }

  lemma {:induction false} FirstSeenInOrder(keys: seq<string>)
    ensures InFirstAppearanceOrder(FirstSeen(keys), keys)
  {
    if |keys| > 0 {
      var front := keys[..|keys| - 1];
      FirstSeenInOrder(front);
      FirstSeenStep(front, keys[|keys| - 1]);
      assert keys == front + [keys[|keys| - 1]];
    }
  }

  /** `counter.items()` for the keys `keys` */
  function ItemsOf(keys: seq<string>): seq<Entry> {
    EntriesOf(FirstSeen(keys), Tally(keys))
  }

  /** Each item is a key seen, with the number of times it was seen. */
  lemma ItemsCount(keys: seq<string>)
    ensures var items := ItemsOf(keys);
      forall i :: 0 <= i < |items| ==> items[i].pattern in keys && items[i].count == multiset(keys)[items[i].pattern]
  {
    TallyCounts(keys);
    FirstSeenKeys(keys);
  }

  /** Changing the count of a key outside `order` leaves its entries alone. */
  lemma EntriesIgnoreOtherKeys(order: seq<string>, counts: map<string, nat>, key: string, v: nat)
    requires key !in order
    ensures EntriesOf(order, counts[key := v]) == EntriesOf(order, counts)
  {
  }

  lemma TotalOfEntriesSnoc(order: seq<string>, counts: map<string, nat>)
    requires |order| > 0
    ensures Total(EntriesOf(order, counts)) ==
      Total(EntriesOf(order[..|order| - 1], counts)) + Get(counts, order[|order| - 1])
  {
    var front := order[..|order| - 1];
    var last := order[|order| - 1];
    TotalSnoc(EntriesOf(front, counts), Entry(last, Get(counts, last)));
  }

  /** Without its last key, a list of distinct keys stays distinct and no longer holds that key. */
  lemma DistinctFront(order: seq<string>)
    requires Distinct(order) && |order| > 0
    ensures var front := order[..|order| - 1];
      Distinct(front) && order[|order| - 1] !in front &&
      forall key :: key in order && key != order[|order| - 1] ==> key in front
  {
    var front := order[..|order| - 1];
    assert order == front + [order[|order| - 1]];
  }

  /** Setting the count of a listed key to `v` moves the total by `v` less the old count. */
  lemma {:induction false} TotalOfUpdate(order: seq<string>, counts: map<string, nat>, key: string, v: nat)
    requires Distinct(order) && key in order
    ensures Total(EntriesOf(order, counts[key := v])) + Get(counts, key) == Total(EntriesOf(order, counts)) + v
  {
    var front := order[..|order| - 1];
    var last := order[|order| - 1];
    TotalOfEntriesSnoc(order, counts);
    TotalOfEntriesSnoc(order, counts[key := v]);
    DistinctFront(order);
    if key == last {
      EntriesIgnoreOtherKeys(front, counts, key, v);
    } else {
      TotalOfUpdate(front, counts, key, v);
    }
  }

  lemma TallySnoc(keys: seq<string>, key: string)
    ensures Tally(keys + [key]) == Tally(keys)[key := Get(Tally(keys), key) + 1]
    ensures FirstSeen(keys + [key]) == if key in FirstSeen(keys) then FirstSeen(keys) else FirstSeen(keys) + [key]
  {
    assert (keys + [key])[..|keys|] == keys;
  }

  /** The counts after `counter[key] += 1` are the tally of one more key. */
  lemma TallyAfterAdd(keys: seq<string>, key: string, before: map<string, nat>, after: map<string, nat>)
    requires before == Tally(keys) && after == before[key := Get(before, key) + 1]
    ensures after == Tally(keys + [key])
  {
    TallySnoc(keys, key);
  }

  lemma TotalSnoc(entries: seq<Entry>, e: Entry)
    ensures Total(entries + [e]) == Total(entries) + e.count
  {
    assert (entries + [e])[..|entries|] == entries;
  }

  lemma NewKeyTotal(order: seq<string>, counts: map<string, nat>, key: string)
    requires Distinct(order) && key !in order
    ensures Total(EntriesOf(order + [key], counts[key := 1])) == Total(EntriesOf(order, counts)) + 1
  {
    var longer := order + [key];
    assert longer[..|order|] == order;
    EntriesIgnoreOtherKeys(order, counts, key, 1);
    TotalSnoc(EntriesOf(order, counts[key := 1]), Entry(key, 1));
  }

  lemma KnownKeyTotal(front: seq<string>, key: string)
    requires key in FirstSeen(front)
    ensures Total(ItemsOf(front + [key])) == Total(ItemsOf(front)) + 1
  {
    var order := FirstSeen(front);
    var counts := Tally(front);
    TallySnoc(front, key);
    FirstSeenKeys(front);
    assert FirstSeen(front + [key]) == order;
    TotalOfUpdate(order, counts, key, Get(counts, key) + 1);
  }

  lemma NewKeyItemsTotal(front: seq<string>, key: string)
    requires key !in FirstSeen(front)
    ensures Total(ItemsOf(front + [key])) == Total(ItemsOf(front)) + 1
  {
    var order := FirstSeen(front);
    var counts := Tally(front);
    TallySnoc(front, key);
    FirstSeenKeys(front);
    TallyCounts(front);
    assert Get(counts, key) == 0;
    assert ItemsOf(front + [key]) == EntriesOf(order + [key], counts[key := 1]);
    NewKeyTotal(order, counts, key);
  }

  /** One more key adds one to the total, whether it is new or not. */
  lemma ItemsTotalStep(keys: seq<string>)
    requires |keys| > 0
    ensures Total(ItemsOf(keys)) == Total(ItemsOf(keys[..|keys| - 1])) + 1
  {
    var front := keys[..|keys| - 1];
    var key := keys[|keys| - 1];
    assert keys == front + [key];
    if key in FirstSeen(front) {
      KnownKeyTotal(front, key);
    } else {
      NewKeyItemsTotal(front, key);
    }
  }

  /** The counts of the items add up to the number of error lines. */
  lemma {:induction false} ItemsTotal(keys: seq<string>)
    ensures Total(ItemsOf(keys)) == |keys|
  {
    if |keys| > 0 {
      var front := keys[..|keys| - 1];
      ItemsTotal(front);
      ItemsTotalStep(keys);
    }
  }

  /** No item at all just when no line was an error line. */
  lemma ItemsEmpty(keys: seq<string>)
    ensures ItemsOf(keys) == [] <==> keys == []
  {
    FirstSeenKeys(keys);
    if keys != [] {
      assert keys[0] in FirstSeen(keys);
    }
  }

  lemma {:induction false} NoErrorKeys(lines: seq<string>, normalize: string -> string)
    ensures ErrorKeys(lines, normalize) == [] <==> forall i :: 0 <= i < |lines| ==> !IsErrorLine(lines[i])
  {
    if |lines| > 0 {
      var front := lines[..|lines| - 1];
      NoErrorKeys(front, normalize);
      assert forall i :: 0 <= i < |front| ==> front[i] == lines[i];
    }
  }

  /** No entry of `r` is for `key`. */
  predicate Unlisted(r: seq<Entry>, key: string) {
    forall j :: 0 <= j < |r| ==> r[j].pattern != key
  }

  /** A key of the counter that `most_common(n)` does not list counts no more than any key it lists. */
  lemma UnlistedCountsLess(items: seq<Entry>, n: int, order: seq<string>, counts: map<string, nat>, i: nat, key: string)
    requires items == EntriesOf(order, counts)
    requires key in counts && key in order
    requires i < |MostCommon(items, n)| && Unlisted(MostCommon(items, n), key)
    ensures MostCommon(items, n)[i].count >= counts[key]
  {
    var k :| 0 <= k < |order| && order[k] == key;
    var e := items[k];
    assert e.pattern == key && e.count == counts[key];
    MostCommonBeatsLeftOut(items, n, e);
  }

  /** What `most_common(n)` lists, for a counter with key order `order` and counts `counts`. */
  lemma TopOfCounter(order: seq<string>, counts: map<string, nat>, n: int)
    requires forall key :: key in counts <==> key in order
    requires Distinct(order)
    ensures var r := MostCommon(EntriesOf(order, counts), n);
      && Descending(r)
      && DistinctPatterns(r)
      && (forall i :: 0 <= i < |r| ==> r[i].pattern in counts && r[i].count == counts[r[i].pattern])
      && (forall c :: WithCount(r, c) <= WithCount(EntriesOf(order, counts), c))
      && (forall i, key :: 0 <= i < |r| && key in counts && Unlisted(r, key) ==> r[i].count >= counts[key])
  {
    var items := EntriesOf(order, counts);
    var r := MostCommon(items, n);
    MostCommonDescending(items, n);
    MostCommonDistinct(items, n);
    TopEntriesCounted(items, n, order, counts);
    forall c ensures WithCount(r, c) <= WithCount(items, c) {
      MostCommonKeepsEarliest(items, n, c);
    }
    forall i, key | 0 <= i < |r| && key in counts && Unlisted(r, key)
      ensures r[i].count >= counts[key]
    {
      UnlistedCountsLess(items, n, order, counts, i, key);
    }
  }

  /** Every entry `most_common(n)` lists is a key of the counter with its count. */
  lemma TopEntriesCounted(items: seq<Entry>, n: int, order: seq<string>, counts: map<string, nat>)
    requires items == EntriesOf(order, counts)
    requires forall key :: key in order ==> key in counts
    ensures var r := MostCommon(items, n);
      forall i :: 0 <= i < |r| ==> r[i].pattern in counts && r[i].count == counts[r[i].pattern]
  {
    var r := MostCommon(items, n);
    MostCommonFromItems(items, n);
    forall i | 0 <= i < |r|
      ensures r[i].pattern in counts && r[i].count == counts[r[i].pattern]
    {
      assert r[i] in multiset(items);
      var k :| 0 <= k < |items| && items[k] == r[i];
    }
  }

  // ---------------------------------------------------------------------
  // The counter
  // ---------------------------------------------------------------------

  /** `collections.Counter` keyed by normalised line; `order` is its key order. */
  class ErrorPatternCounter {
    var counts: map<string, nat>
    var order: seq<string>

    ghost predicate Valid()
      reads this
    {
      (forall key :: key in counts <==> key in order) &&
      Distinct(order) &&
      (forall key :: key in counts ==> counts[key] >= 1)
    }

    /** `Counter()` */
    constructor()
      ensures Valid() && counts == map[] && order == []
    {
      counts := map[];
      order := [];
    }

    /** `counter[key] += 1`: a new key goes last in the order. */
    method Add(key: string)
      requires Valid()
      modifies this
      ensures Valid()
      ensures counts == old(counts)[key := Get(old(counts), key) + 1]
      ensures order == if key in old(counts) then old(order) else old(order) + [key]
    {
      if key !in counts {
        order := order + [key];
      }
      counts := counts[key := Get(counts, key) + 1];
    }

    /** `not counter` */
    predicate IsEmpty()
      reads this
    {
      counts == map[]
    }

    /**
     * `counter.most_common(n)`: at most `n` (key, count) pairs of the
     * counter, largest count first, ties in the counter's order.
     */
    function MostCommonN(n: int): (r: seq<Entry>)
      reads this
      requires Valid()
      ensures r == MostCommon(EntriesOf(order, counts), n)
      ensures |r| == if n <= 0 then 0 else Min(n, |order|)
      ensures Descending(r)
      ensures DistinctPatterns(r)
      ensures forall i :: 0 <= i < |r| ==> r[i].pattern in counts && r[i].count == counts[r[i].pattern]
      ensures forall c :: WithCount(r, c) <= WithCount(EntriesOf(order, counts), c)
      ensures forall i, key :: 0 <= i < |r| && key in counts && Unlisted(r, key) ==> r[i].count >= counts[key]
    {
      TopOfCounter(order, counts, n);
      MostCommon(EntriesOf(order, counts), n)
    }
  }

  // ---------------------------------------------------------------------
  // find_anomalous_errors
  // ---------------------------------------------------------------------

  /** The log file as the function meets it. */
  datatype LogSource =
    | Missing                     // open() raised FileNotFoundError
    | Unreadable(reason: string)  // any other exception while opening or reading
    | Lines(lines: seq<string>)   // the file's lines, each with its terminator

  /** What the function prints. */
  datatype Report =
    | NotFound              // "Error: Log file not found at ..."
    | Unexpected(reason: string)  // "An unexpected error occurred: ..."
    | NoPatterns            // "No error patterns found."
    | Top(entries: seq<Entry>)    // one "Count: ... | Pattern: ..." line per entry

  lemma ErrorKeysStep(lines: seq<string>, normalize: string -> string, i: nat)
    requires i < |lines|
    ensures ErrorKeys(lines[..i + 1], normalize) == ErrorKeys(lines[..i], normalize) + (if IsErrorLine(lines[i]) then [normalize(lines[i])] else [])
  {
    assert lines[..i + 1][..i] == lines[..i];
  }

  /** One `counter[key] += 1` keeps the counter the tally and first-seen order of the keys counted. */
  lemma CounterStep(keys: seq<string>, key: string, counts: map<string, nat>, order: seq<string>,
                    counts': map<string, nat>, order': seq<string>)
    requires counts == Tally(keys) && order == FirstSeen(keys)
    requires key in counts <==> key in order
    requires counts' == counts[key := Get(counts, key) + 1]
    requires order' == if key in counts then order else order + [key]
    ensures counts' == Tally(keys + [key]) && order' == FirstSeen(keys + [key])
  {
    TallyAfterAdd(keys, key, counts, counts');
    TallySnoc(keys, key);
  }

  /** The loop body: an error line's normalised form is counted, any other line is skipped. */
  method CountLine(counter: ErrorPatternCounter, line: string, normalize: string -> string, ghost keys: seq<string>)
    returns (ghost keys': seq<string>)
    requires counter.Valid() && counter.counts == Tally(keys) && counter.order == FirstSeen(keys)
    modifies counter
    ensures keys' == keys + (if IsErrorLine(line) then [normalize(line)] else [])
    ensures counter.Valid() && counter.counts == Tally(keys') && counter.order == FirstSeen(keys')
  {
    keys' := keys;
    if IsErrorLine(line) {
      var key := normalize(line);
      ghost var counts, order := counter.counts, counter.order;
      counter.Add(key);
      CounterStep(keys, key, counts, order, counter.counts, counter.order);
      keys' := keys + [key];
    }
  }

  /**
   * The reading loop: every error line's normalised form is counted, in the
   * order of the lines.  The normaliser is a parameter (`FindAnomalousErrors`
   * passes `Normalize`), so the loop's proof does not depend on how it works.
   */
  method CountErrors(lines: seq<string>, normalize: string -> string) returns (counter: ErrorPatternCounter)
    ensures fresh(counter) && counter.Valid()
    ensures counter.counts == Tally(ErrorKeys(lines, normalize)) && counter.order == FirstSeen(ErrorKeys(lines, normalize))
  {
    counter := new ErrorPatternCounter();
    ghost var keys: seq<string> := [];
    var i := 0;
    while i < |lines|
      invariant 0 <= i <= |lines|
      invariant keys == ErrorKeys(lines[..i], normalize)
      invariant counter.Valid() && counter.counts == Tally(keys) && counter.order == FirstSeen(keys)
    {
      ErrorKeysStep(lines, normalize, i);
      keys := CountLine(counter, lines[i], normalize, keys);
      i := i + 1;
    }
    assert lines[..i] == lines;
  }

  /** No pattern is reported just when no line is an error line. */
  lemma NothingToReport(lines: seq<string>, normalize: string -> string)
    ensures Tally(ErrorKeys(lines, normalize)) == map[] <==> forall i :: 0 <= i < |lines| ==> !IsErrorLine(lines[i])
  {
    var keys := ErrorKeys(lines, normalize);
    TallyCounts(keys);
    NoErrorKeys(lines, normalize);
    if keys != [] {
      assert keys[0] in Tally(keys);
    }
  }

  /**
   * `find_anomalous_errors(log_file_path, top_n)` with the file already read:
   * a failed read gives its message; otherwise the error lines are counted
   * and either "no patterns" or the `top_n` most common forms are reported.
   */
  method FindAnomalousErrors(source: LogSource, topN: int) returns (report: Report)
    ensures source.Missing? ==> report == NotFound
    ensures source.Unreadable? ==> report == Unexpected(source.reason)
    ensures source.Lines? ==> (report == NoPatterns <==> forall i :: 0 <= i < |source.lines| ==> !IsErrorLine(source.lines[i]))
    ensures source.Lines? && !report.NoPatterns? ==> report == Top(MostCommon(ItemsOf(ErrorKeys(source.lines, Normalize)), topN))
  {
    match source
    case Missing =>
      return NotFound;
    case Unreadable(reason) =>
      return Unexpected(reason);
    case Lines(lines) =>
      var counter := CountErrors(lines, Normalize);
      NothingToReport(lines, Normalize);
      if counter.IsEmpty() {
        return NoPatterns;
      }
      report := Top(counter.MostCommonN(topN));
  }
}
