/**
 * Column-wise reductions of a trip table, each a scan in row order:
 * `dropna`, `fillna(0).sum`, `nunique`, boolean-mask selection of one group.
 */
module Columns {
  import opened Cells
  import opened Trips

  /** The distinct non-missing values of a key column (what `nunique` counts). */
  function Keys(rows: seq<Trip>, c: KeyColumn): (ks: set<string>)
    ensures |ks| <= |rows|
    decreases |rows|
  {
    if rows == [] then {}
    else
      var n := |rows| - 1;
      var prev := Keys(rows[..n], c);
      match Key(rows[n], c)
      case Missing => prev
      case Present(k) => prev + {k}
  }

  /** A key is among `Keys` exactly when some row holds it. */
  lemma {:induction false} KeysArePresentValues(rows: seq<Trip>, c: KeyColumn, k: string)
    ensures k in Keys(rows, c) <==> exists i :: 0 <= i < |rows| && Key(rows[i], c) == Present(k)
    decreases |rows|
  {
    if rows != [] {
      var n := |rows| - 1;
      KeysArePresentValues(rows[..n], c, k);
      assert forall i :: 0 <= i < n ==> rows[..n][i] == rows[i];
    }
  }

  /** The rows whose key column holds `k`, in table order (one `groupby` group). */
  function Group(rows: seq<Trip>, c: KeyColumn, k: string): (g: seq<Trip>)
    ensures |g| <= |rows|
    ensures g != [] <==> k in Keys(rows, c)
    decreases |rows|
  {
    if rows == [] then []
    else
      var n := |rows| - 1;
      var prev := Group(rows[..n], c, k);
      if Key(rows[n], c) == Present(k) then prev + [rows[n]] else prev
  }

  /** A group holds rows of the table, all with key `k`. */
  lemma {:induction false} GroupMembers(rows: seq<Trip>, c: KeyColumn, k: string)
    ensures forall t :: t in Group(rows, c, k) ==> t in rows && Key(t, c) == Present(k)
    decreases |rows|
  {
    if rows != [] {
      GroupMembers(rows[..|rows| - 1], c, k);
    }
  }

  /** `df[c].dropna()`: the present values of a numeric column, in table order. */
  function PresentValues(rows: seq<Trip>, c: NumColumn): (xs: seq<real>)
    ensures |xs| <= |rows|
    ensures forall x :: multiset(xs)[x] == Occurrences(rows, c, x)
    ensures xs == [] <==> forall i :: 0 <= i < |rows| ==> Num(rows[i], c).Missing?
    decreases |rows|
  {
    if rows == [] then []
    else
      var n := |rows| - 1;
      var prev := PresentValues(rows[..n], c);
      assert forall i :: 0 <= i < n ==> rows[..n][i] == rows[i];
      match Num(rows[n], c)
      case Missing => prev
      case Present(x) => prev + [x]
  }

  /** Appending a row appends its value, when present, to the present values. */
  lemma PresentValuesSnoc(rows: seq<Trip>, t: Trip, c: NumColumn)
    ensures PresentValues(rows + [t], c)
            == PresentValues(rows, c) + (if Num(t, c).Present? then [Num(t, c).value] else [])
  {
    assert (rows + [t])[..|rows|] == rows;
  }

  /** `df[c].fillna(0).sum()`: every row contributes its value, a missing cell contributes 0. */
  function Total(rows: seq<Trip>, c: NumColumn): real
    decreases |rows|
  {
    if rows == [] then 0.0
    else Total(rows[..|rows| - 1], c) + FillZero(Num(rows[|rows| - 1], c))
  }

  /** Counting a missing value as 0 gives the same total as skipping it. */
  lemma {:induction false} TotalSkipsMissing(rows: seq<Trip>, c: NumColumn)
    ensures Total(rows, c) == Sum(PresentValues(rows, c))
    decreases |rows|
  {
    if rows != [] {
      var n := |rows| - 1;
      TotalSkipsMissing(rows[..n], c);
      var prev := PresentValues(rows[..n], c);
      match Num(rows[n], c)
      case Missing =>
      case Present(x) =>
        assert (prev + [x])[..|prev|] == prev;
    }
  }

  /** Appending a row adds its value, or 0 when missing, to the total. */
  lemma TotalSnoc(rows: seq<Trip>, t: Trip, c: NumColumn)
    ensures Total(rows + [t], c) == Total(rows, c) + FillZero(Num(t, c))
  {
    assert (rows + [t])[..|rows|] == rows;
  }

  /** Number of rows whose key column is present (the sum of `value_counts`). */
  function PresentCount(rows: seq<Trip>, c: KeyColumn): (n: nat)
    ensures n <= |rows|
    ensures n == 0 <==> Keys(rows, c) == {}
    decreases |rows|
  {
    if rows == [] then 0
    else PresentCount(rows[..|rows| - 1], c) + (if Key(rows[|rows| - 1], c).Present? then 1 else 0)
  }

  /** Number of rows whose numeric column holds exactly `x`. */
  function Occurrences(rows: seq<Trip>, c: NumColumn, x: real): nat
    decreases |rows|
  {
    if rows == [] then 0
    else Occurrences(rows[..|rows| - 1], c, x) + (if Num(rows[|rows| - 1], c) == Present(x) then 1 else 0)
  }
}
