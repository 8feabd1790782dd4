/**
 * `Counter.most_common(n)`: the counter's entries, in the counter's own order
 * (the order in which keys were first added), sorted by count from the
 * largest down, ties keeping that order; then the first `n` of them, and
 * none at all when `n` is zero or negative.
 */
module Ranking {

  /** One `(pattern, count)` pair of the counter. */
  datatype Entry = Entry(pattern: string, count: nat)

  /** Counts never increase along `s`. */
  predicate Descending(s: seq<Entry>) {
    forall i, j :: 0 <= i < j < |s| ==> s[i].count >= s[j].count
  }

  /** The entries of `s` whose count is `c`, in their order in `s`. */
  function WithCount(s: seq<Entry>, c: nat): (r: seq<Entry>)
    ensures |r| <= |s|
  {
    if |s| == 0 then []
    else WithCount(s[..|s| - 1], c) + (if s[|s| - 1].count == c then [s[|s| - 1]] else [])
  }

  /**
   * `e` put into the descending `sorted` after every entry whose count is at
   * least its own.
   */
  function Insert(e: Entry, sorted: seq<Entry>): (r: seq<Entry>)
    ensures |r| == |sorted| + 1
  {
    if |sorted| == 0 then [e]
    else if sorted[|sorted| - 1].count >= e.count then sorted + [e]
    else Insert(e, sorted[..|sorted| - 1]) + [sorted[|sorted| - 1]]
  }

  /** `sorted(items, key=count, reverse=True)`: a stable sort on the count, largest first. */
  function SortByCount(items: seq<Entry>): (r: seq<Entry>)
    ensures |r| == |items|
  {
    if |items| == 0 then []
    else Insert(items[|items| - 1], SortByCount(items[..|items| - 1]))
  }

  function Min(a: int, b: int): int {
    if a <= b then a else b
  }

  /** `most_common(n)` over the entries `items`, given in the counter's order. */
  function MostCommon(items: seq<Entry>, n: int): (r: seq<Entry>)
    ensures |r| == if n <= 0 then 0 else Min(n, |items|)
  {
    if n <= 0 then []
    else SortByCount(items)[..Min(n, |items|)]
  }

  // ---------------------------------------------------------------------
  // Where Insert puts the new entry
  // ---------------------------------------------------------------------

  /** Where `Insert` puts `e`: after the entries at the back of `sorted` that count less. */
  function InsertAt(e: Entry, sorted: seq<Entry>): (p: nat)
    ensures p <= |sorted|
  {
    if |sorted| == 0 || sorted[|sorted| - 1].count >= e.count then |sorted|
    else InsertAt(e, sorted[..|sorted| - 1])
  }

  /**
   * `Insert` keeps the entries before position `InsertAt` in place, puts `e`
   * there, and shifts the rest, all of which count less than `e`, one place on.
   */
  lemma {:induction false} InsertSplits(e: Entry, sorted: seq<Entry>)
    ensures var p := InsertAt(e, sorted);
      var r := Insert(e, sorted);
      (forall k :: 0 <= k < p ==> r[k] == sorted[k]) &&
      r[p] == e &&
      (forall k :: p < k < |r| ==> r[k] == sorted[k - 1] && sorted[k - 1].count < e.count) &&
      (p > 0 ==> sorted[p - 1].count >= e.count)
  {
    if |sorted| > 0 && sorted[|sorted| - 1].count < e.count {
      var front := sorted[..|sorted| - 1];
      InsertSplits(e, front);
      var p := InsertAt(e, front);
      var r := Insert(e, sorted);
      assert r == Insert(e, front) + [sorted[|sorted| - 1]];
      forall k | p < k < |r|
        ensures r[k] == sorted[k - 1] && sorted[k - 1].count < e.count
      {
        if k < |sorted| {
          assert r[k] == Insert(e, front)[k] == front[k - 1];
        }
      }
    }
  }

  lemma {:induction false} InsertIsPermutation(e: Entry, sorted: seq<Entry>)
    ensures multiset(Insert(e, sorted)) == multiset(sorted) + multiset{e}
  {
    if |sorted| > 0 && sorted[|sorted| - 1].count < e.count {
      var front := sorted[..|sorted| - 1];
      var last := sorted[|sorted| - 1];
      InsertIsPermutation(e, front);
      MultisetOfLast(sorted);
    }
  }

  // ---------------------------------------------------------------------
  // The sort is a permutation
  // ---------------------------------------------------------------------

  lemma MultisetOfLast(s: seq<Entry>)
    requires |s| > 0
    ensures multiset(s) == multiset(s[..|s| - 1]) + multiset{s[|s| - 1]}
  {
    assert s == s[..|s| - 1] + [s[|s| - 1]];
  }

  lemma MultisetOfPrefix(s: seq<Entry>, k: nat)
    requires k <= |s|
    ensures multiset(s[..k]) <= multiset(s)
  {
    assert s == s[..k] + s[k..];
  }

  lemma {:induction false} SortIsPermutation(items: seq<Entry>)
    ensures multiset(SortByCount(items)) == multiset(items)
  {
    if |items| > 0 {
      var front := items[..|items| - 1];
      var last := items[|items| - 1];
      SortIsPermutation(front);
      InsertIsPermutation(last, SortByCount(front));
      MultisetOfLast(items);
    }
  }

  // ---------------------------------------------------------------------
  // The sort is descending
  // ---------------------------------------------------------------------

  lemma InsertDescending(e: Entry, sorted: seq<Entry>)
    requires Descending(sorted)
    ensures Descending(Insert(e, sorted))
  {
    var p := InsertAt(e, sorted);
    InsertSplits(e, sorted);
    var r := Insert(e, sorted);
    forall i, j | 0 <= i < j < |r|
      ensures r[i].count >= r[j].count
    {
      if i < p && j == p {
        assert sorted[i].count >= sorted[p - 1].count;
      }
    }
  }

  lemma {:induction false} SortDescending(items: seq<Entry>)
    ensures Descending(SortByCount(items))
  {
    if |items| > 0 {
      SortDescending(items[..|items| - 1]);
      InsertDescending(items[|items| - 1], SortByCount(items[..|items| - 1]));
    }
  }

  // ---------------------------------------------------------------------
  // The sort is stable
  // ---------------------------------------------------------------------

  lemma WithCountSnoc(s: seq<Entry>, e: Entry, c: nat)
    ensures WithCount(s + [e], c) == WithCount(s, c) + (if e.count == c then [e] else [])
  {
    assert (s + [e])[..|s|] == s;
  }

  lemma {:induction false} InsertWithCount(e: Entry, sorted: seq<Entry>, c: nat)
    ensures WithCount(Insert(e, sorted), c) == WithCount(sorted, c) + (if e.count == c then [e] else [])
  {
    if |sorted| == 0 {
      WithCountSnoc([], e, c);
      assert [] + [e] == [e];
    } else if sorted[|sorted| - 1].count >= e.count {
      WithCountSnoc(sorted, e, c);
    } else {
      var front := sorted[..|sorted| - 1];
      var last := sorted[|sorted| - 1];
      InsertWithCount(e, front, c);
      assert Insert(e, sorted) == Insert(e, front) + [last];
      assert sorted == front + [last];
      WithCountPastSmaller(Insert(e, front), front, e, last, c);
    }
  }

  /** Putting `last`, which counts less than `e`, after both sides keeps their equation. */
  lemma WithCountPastSmaller(x: seq<Entry>, front: seq<Entry>, e: Entry, last: Entry, c: nat)
    requires last.count < e.count
    requires WithCount(x, c) == WithCount(front, c) + (if e.count == c then [e] else [])
    ensures WithCount(x + [last], c) == WithCount(front + [last], c) + (if e.count == c then [e] else [])
  {
    WithCountSnoc(x, last, c);
    WithCountSnoc(front, last, c);
  }

  /** Entries of equal count come out in the order they went in. */
  lemma {:induction false} SortIsStable(items: seq<Entry>, c: nat)
    ensures WithCount(SortByCount(items), c) == WithCount(items, c)
  {
    if |items| > 0 {
      var front := items[..|items| - 1];
      SortIsStable(front, c);
      InsertWithCount(items[|items| - 1], SortByCount(front), c);
    }
  }

  // ---------------------------------------------------------------------
  // most_common(n)
  // ---------------------------------------------------------------------

  lemma {:induction false} WithCountOfPrefix(s: seq<Entry>, k: nat, c: nat)
    requires k <= |s|
    ensures WithCount(s[..k], c) <= WithCount(s, c)
    decreases |s|
  {
    if k < |s| {
      var front := s[..|s| - 1];
      WithCountOfPrefix(front, k, c);
      assert front[..k] == s[..k];
    } else {
      assert s[..k] == s;
    }
  }

  /** `most_common(n)` is the first entries of the sorted ones. */
  lemma MostCommonIsPrefix(items: seq<Entry>, n: int)
    ensures MostCommon(items, n) <= SortByCount(items)
  {
  }

  /** `most_common(n)` lists the largest count first. */
  lemma MostCommonDescending(items: seq<Entry>, n: int)
    ensures Descending(MostCommon(items, n))
  {
    SortDescending(items);
  }

  /** Every entry `most_common(n)` lists is an entry of the counter, listed once. */
  lemma MostCommonFromItems(items: seq<Entry>, n: int)
    ensures multiset(MostCommon(items, n)) <= multiset(items)
  {
    var s := SortByCount(items);
    SortIsPermutation(items);
    MultisetOfPrefix(s, |MostCommon(items, n)|);
  }

  /** Among entries of equal count, `most_common(n)` keeps the earliest in the counter's order. */
  lemma MostCommonKeepsEarliest(items: seq<Entry>, n: int, c: nat)
    ensures WithCount(MostCommon(items, n), c) <= WithCount(items, c)
  {
    var s := SortByCount(items);
    var r := MostCommon(items, n);
    assert r == s[..|r|];
    WithCountOfPrefix(s, |r|, c);
    SortIsStable(items, c);
  }

  /** What `most_common(n)` leaves out counts no more than anything it keeps. */
  lemma MostCommonLeavesSmaller(items: seq<Entry>, n: int)
    ensures var r := MostCommon(items, n);
      var s := SortByCount(items);
      forall i, j :: 0 <= i < |r| <= j < |s| ==> r[i].count >= s[j].count
  {
    SortDescending(items);
  }

  /** An entry of the counter that `most_common(n)` leaves out counts no more than any entry it lists. */
  lemma MostCommonBeatsLeftOut(items: seq<Entry>, n: int, e: Entry)
    requires e in items && e !in MostCommon(items, n)
    ensures forall i :: 0 <= i < |MostCommon(items, n)| ==> MostCommon(items, n)[i].count >= e.count
  {
    var s := SortByCount(items);
    var r := MostCommon(items, n);
    SortIsPermutation(items);
    assert e in multiset(s);
    var j :| 0 <= j < |s| && s[j] == e;
    assert r == s[..|r|];
    MostCommonLeavesSmaller(items, n);
  }

  /** No two entries are for the same pattern. */
  predicate DistinctPatterns(s: seq<Entry>) {
    forall i, j :: 0 <= i < j < |s| ==> s[i].pattern != s[j].pattern
  }

  /** With distinct patterns, each entry occurs at most once. */
  lemma {:induction false} AtMostOnce(s: seq<Entry>, e: Entry)
    requires DistinctPatterns(s)
    ensures multiset(s)[e] <= 1
    decreases |s|
  {
    if |s| > 0 {
      var front := s[..|s| - 1];
      assert DistinctPatterns(front) by {
        forall i, j | 0 <= i < j < |front| ensures front[i].pattern != front[j].pattern {
          assert front[i] == s[i] && front[j] == s[j];
        }
      }
      AtMostOnce(front, e);
      MultisetOfLast(s);
      if s[|s| - 1] == e {
        assert e !in front by {
          forall i | 0 <= i < |front| ensures front[i] != e {
            assert front[i] == s[i];
          }
        }
      }
    }
  }

  /** An entry at two positions occurs at least twice. */
  lemma TwiceListed(s: seq<Entry>, i: nat, j: nat)
    requires i < j < |s| && s[i] == s[j]
    ensures multiset(s)[s[i]] >= 2
  {
    assert s == s[..j] + [s[j]] + s[j + 1..];
    assert s[..j][i] == s[i];
  }

  /** Taking entries from a list with distinct patterns, no more often than they occur, keeps the patterns distinct. */
  lemma SubDistinct(r: seq<Entry>, items: seq<Entry>)
    requires multiset(r) <= multiset(items) && DistinctPatterns(items)
    ensures DistinctPatterns(r)
  {
    forall i, j | 0 <= i < j < |r| ensures r[i].pattern != r[j].pattern {
      if r[i].pattern == r[j].pattern {
        assert r[i] in multiset(items) && r[j] in multiset(items);
        var a :| 0 <= a < |items| && items[a] == r[i];
        var b :| 0 <= b < |items| && items[b] == r[j];
        assert a == b;
        TwiceListed(r, i, j);
        AtMostOnce(items, r[i]);
        assert false;
      }
    }
  }

  /** `most_common(n)` of entries with distinct patterns lists each pattern once. */
  lemma MostCommonDistinct(items: seq<Entry>, n: int)
    requires DistinctPatterns(items)
    ensures DistinctPatterns(MostCommon(items, n))
  {
    MostCommonFromItems(items, n);
    SubDistinct(MostCommon(items, n), items);
  }

  /** `most_common(n)` is empty exactly when `n <= 0` or there are no entries. */
  lemma MostCommonEmpty(items: seq<Entry>, n: int)
    ensures MostCommon(items, n) == [] <==> n <= 0 || items == []
  {
  }
}
