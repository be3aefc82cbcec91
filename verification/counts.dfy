/**
 * `df[c].value_counts()`: one count per distinct present value, ordered by
 * count, largest first. Built in one pass as an association list and then sorted.
 */
module Counts {
  import opened Cells
  import opened Trips
  import opened Columns

  /** One entry of a `value_counts` series. */
  datatype Count = Count(key: string, n: nat)

  /** The keys of an association list. */
  function KeysOf(s: seq<Count>): set<string>
    decreases |s|
  {
    if s == [] then {} else {s[0].key} + KeysOf(s[1..])
  }

  /** No key occurs twice. */
  predicate Unique(s: seq<Count>)
    decreases |s|
  {
    s == [] || (s[0].key !in KeysOf(s[1..]) && Unique(s[1..]))
  }

  /** The count recorded for `k`, 0 when `k` is absent. */
  function CountFor(s: seq<Count>, k: string): nat
    decreases |s|
  {
    if s == [] then 0 else (if s[0].key == k then s[0].n else 0) + CountFor(s[1..], k)
  }

  /** The sum of all counts. */
  function CountTotal(s: seq<Count>): nat
    decreases |s|
  {
    if s == [] then 0 else s[0].n + CountTotal(s[1..])
  }

  /** Counts never increase from front to back. */
  predicate Descending(s: seq<Count>)
  {
    forall i, j :: 0 <= i < j < |s| ==> s[i].n >= s[j].n
  }

  /** Record one more occurrence of `k`. */
  function Bump(s: seq<Count>, k: string): (r: seq<Count>)
    ensures KeysOf(r) == KeysOf(s) + {k}
    ensures Unique(s) ==> Unique(r)
    ensures forall k' :: CountFor(r, k') == CountFor(s, k') + (if k' == k then 1 else 0)
    ensures CountTotal(r) == CountTotal(s) + 1
    decreases |s|
  {
    if s == [] then [Count(k, 1)]
    else if s[0].key == k then [Count(k, s[0].n + 1)] + s[1..]
    else
      var r := [s[0]] + Bump(s[1..], k);
      assert r[1..] == Bump(s[1..], k);
      r
  }

  /** One pass over the rows: for every present key, how many rows hold it. */
  function Tally(rows: seq<Trip>, c: KeyColumn): (r: seq<Count>)
    ensures Unique(r)
    ensures KeysOf(r) == Keys(rows, c)
    ensures forall k :: CountFor(r, k) == |Group(rows, c, k)|
    ensures CountTotal(r) == PresentCount(rows, c)
    decreases |rows|
  {
    if rows == [] then []
    else
      var n := |rows| - 1;
      var prev := Tally(rows[..n], c);
      match Key(rows[n], c)
      case Missing =>
        assert forall k' :: Group(rows, c, k') == Group(rows[..n], c, k');
        prev
      case Present(k) =>
        assert forall k' :: |Group(rows, c, k')| == |Group(rows[..n], c, k')| + (if k' == k then 1 else 0);
        Bump(prev, k)
  }

  /** Insert an entry before the first entry with a count not larger than its own. */
  function Insert(x: Count, s: seq<Count>): (r: seq<Count>)
    ensures multiset(r) == multiset(s) + multiset{x}
    ensures r != [] && (r[0] == x || (s != [] && r[0] == s[0]))
    decreases |s|
  {
    if s == [] || s[0].n <= x.n then [x] + s
    else
      assert s == [s[0]] + s[1..];
      [s[0]] + Insert(x, s[1..])
  }

  /** Inserting into a list sorted by count keeps it sorted. */
  lemma {:induction false} InsertKeepsDescending(x: Count, s: seq<Count>)
    requires Descending(s)
    ensures Descending(Insert(x, s))
    decreases |s|
  {
    if s != [] && s[0].n > x.n {
      var rest := Insert(x, s[1..]);
      InsertKeepsDescending(x, s[1..]);
      assert s[0].n >= rest[0].n;
      assert Insert(x, s) == [s[0]] + rest;
    }
  }

  /** Inserting adds the entry's key and nothing else, and keeps keys unique when it is new. */
  lemma {:induction false} InsertKeepsKeys(x: Count, s: seq<Count>)
    ensures KeysOf(Insert(x, s)) == KeysOf(s) + {x.key}
    ensures Unique(s) && x.key !in KeysOf(s) ==> Unique(Insert(x, s))
    decreases |s|
  {
    if s != [] && s[0].n > x.n {
      InsertKeepsKeys(x, s[1..]);
      assert Insert(x, s)[1..] == Insert(x, s[1..]);
    }
  }

  /** Inserting adds the entry's count to its key and to the total, and nothing else. */
  lemma {:induction false} InsertKeepsCounts(x: Count, s: seq<Count>)
    ensures forall k :: CountFor(Insert(x, s), k) == CountFor(s, k) + (if k == x.key then x.n else 0)
    ensures CountTotal(Insert(x, s)) == CountTotal(s) + x.n
    decreases |s|
  {
    if s != [] && s[0].n > x.n {
      InsertKeepsCounts(x, s[1..]);
      assert Insert(x, s)[1..] == Insert(x, s[1..]);
    }
  }

  /** `r` is `s` reordered by count, largest first: same entries, keys, counts and total. */
  ghost predicate SortedFrom(r: seq<Count>, s: seq<Count>)
  {
    && multiset(r) == multiset(s)
    && KeysOf(r) == KeysOf(s)
    && (Unique(s) ==> Unique(r))
    && (forall k :: CountFor(r, k) == CountFor(s, k))
    && CountTotal(r) == CountTotal(s)
    && Descending(r)
  }

  /** Inserting the head into the sorted tail sorts the whole list. */
  lemma SortStep(s: seq<Count>, rest: seq<Count>)
    requires s != []
    requires SortedFrom(rest, s[1..])
    ensures SortedFrom(Insert(s[0], rest), s)
  {
    SortStepEntries(s, rest);
    SortStepKeys(s, rest);
    SortStepCounts(s, rest);
    InsertKeepsDescending(s[0], rest);
  }

  /** The head inserted into a reordering of the tail holds the entries of the whole list. */
  lemma SortStepEntries(s: seq<Count>, rest: seq<Count>)
    requires s != [] && multiset(rest) == multiset(s[1..])
    ensures multiset(Insert(s[0], rest)) == multiset(s)
  {
    assert s == [s[0]] + s[1..];
  }

  /** The head inserted into the sorted tail has the keys of the whole list, unique when they were. */
  lemma SortStepKeys(s: seq<Count>, rest: seq<Count>)
    requires s != [] && KeysOf(rest) == KeysOf(s[1..]) && (Unique(s[1..]) ==> Unique(rest))
    ensures KeysOf(Insert(s[0], rest)) == KeysOf(s)
    ensures Unique(s) ==> Unique(Insert(s[0], rest))
  {
    InsertKeepsKeys(s[0], rest);
  }

  /** The head inserted into the sorted tail has the counts and the total of the whole list. */
  lemma SortStepCounts(s: seq<Count>, rest: seq<Count>)
    requires s != [] && (forall k :: CountFor(rest, k) == CountFor(s[1..], k)) && CountTotal(rest) == CountTotal(s[1..])
    ensures forall k :: CountFor(Insert(s[0], rest), k) == CountFor(s, k)
    ensures CountTotal(Insert(s[0], rest)) == CountTotal(s)
  {
    InsertKeepsCounts(s[0], rest);
  }

  /** Insertion sort by count, largest first. */
  function SortByCount(s: seq<Count>): (r: seq<Count>)
    ensures multiset(r) == multiset(s)
    ensures KeysOf(r) == KeysOf(s)
    ensures Unique(s) ==> Unique(r)
    ensures forall k :: CountFor(r, k) == CountFor(s, k)
    ensures CountTotal(r) == CountTotal(s)
    ensures Descending(r)
    decreases |s|
  {
    if s == [] then []
    else
      var rest := SortByCount(s[1..]);
      SortStep(s, rest);
      Insert(s[0], rest)
  }

  /** Every entry's key is among the keys. */
  lemma {:induction false} EntryKeys(s: seq<Count>)
    ensures forall i :: 0 <= i < |s| ==> s[i].key in KeysOf(s)
    decreases |s|
  {
    if s != [] {
      EntryKeys(s[1..]);
      assert forall i :: 1 <= i < |s| ==> s[i] == s[1..][i - 1];
    }
  }

  /** A key that does not occur has count 0. */
  lemma {:induction false} AbsentCountsZero(s: seq<Count>, k: string)
    requires k !in KeysOf(s)
    ensures CountFor(s, k) == 0
    decreases |s|
  {
    if s != [] {
      AbsentCountsZero(s[1..], k);
    }
  }

  /** With unique keys, the count recorded for an entry's key is that entry's count. */
  lemma {:induction false} UniqueEntryCount(s: seq<Count>, i: nat)
    requires Unique(s) && i < |s|
    ensures CountFor(s, s[i].key) == s[i].n
    decreases |s|
  {
    if i == 0 {
      AbsentCountsZero(s[1..], s[0].key);
    } else {
      EntryKeys(s[1..]);
      assert s[i] == s[1..][i - 1];
      UniqueEntryCount(s[1..], i - 1);
    }
  }

  /** Unique keys, stated by position; and there are as many keys as entries. */
  lemma {:induction false} UniqueByPosition(s: seq<Count>)
    requires Unique(s)
    ensures forall i, j :: 0 <= i < j < |s| ==> s[i].key != s[j].key
    ensures |KeysOf(s)| == |s|
    decreases |s|
  {
    if s != [] {
      UniqueByPosition(s[1..]);
      EntryKeys(s[1..]);
      assert forall j :: 1 <= j < |s| ==> s[j] == s[1..][j - 1];
    }
  }

  /**
   * `df[c].value_counts()`: one entry per distinct present value, holding
   * the number of rows with that value (so at least 1), ordered by count,
   * largest first; the counts add up to the number of rows with a value.
   */
  function ValueCounts(rows: seq<Trip>, c: KeyColumn): (r: seq<Count>)
    ensures Descending(r)
    ensures forall i, j :: 0 <= i < j < |r| ==> r[i].key != r[j].key
    ensures KeysOf(r) == Keys(rows, c) && |r| == |Keys(rows, c)|
    ensures forall i :: 0 <= i < |r| ==> r[i].n == |Group(rows, c, r[i].key)| && r[i].n >= 1
    ensures CountTotal(r) == PresentCount(rows, c) <= |rows|
  {
    var r := SortByCount(Tally(rows, c));
    UniqueByPosition(r);
    EntryKeys(r);
    assert forall i :: 0 <= i < |r| ==> r[i].n == |Group(rows, c, r[i].key)| by {
      forall i | 0 <= i < |r|
        ensures r[i].n == |Group(rows, c, r[i].key)|
      {
        UniqueEntryCount(r, i);
      }
    }
    r
  }
}
