/** The sidebar filter: keep the trips of the selected years and months. */
module Selection {
  import opened Trips

  /** `df['Year'].isin(years) & df['Month'].isin(months)` at one row. */
  predicate Selected(t: Trip, years: set<int>, months: set<int>)
  {
    t.year in years && t.month in months
  }

  /** Positions of the selected rows, in table order. */
  function SelectedIndices(rows: seq<Trip>, years: set<int>, months: set<int>): (idx: seq<nat>)
    ensures forall k :: 0 <= k < |idx| ==> idx[k] < |rows| && Selected(rows[idx[k]], years, months)
    ensures forall k, l :: 0 <= k < l < |idx| ==> idx[k] < idx[l]
    ensures forall i :: 0 <= i < |rows| && Selected(rows[i], years, months) ==> i in idx
    decreases |rows|
  {
    if rows == [] then []
    else
      var n := |rows| - 1;
      var prev := SelectedIndices(rows[..n], years, months);
      if Selected(rows[n], years, months) then prev + [n] else prev
  }

  /** Boolean-mask indexing: the selected rows, in table order. */
  function Keep(rows: seq<Trip>, years: set<int>, months: set<int>): (r: seq<Trip>)
    ensures |r| == |SelectedIndices(rows, years, months)|
    ensures forall k :: 0 <= k < |r| ==> r[k] == rows[SelectedIndices(rows, years, months)[k]]
    decreases |rows|
  {
    if rows == [] then []
    else
      var n := |rows| - 1;
      var prev := Keep(rows[..n], years, months);
      if Selected(rows[n], years, months) then prev + [rows[n]] else prev
  }

  /**
   * The filtered table. An empty year or month selection yields an empty
   * table on purpose; otherwise the selected rows in their original order.
   */
  function Filter(rows: seq<Trip>, years: set<int>, months: set<int>): (r: seq<Trip>)
    ensures years == {} || months == {} ==> r == []
    ensures forall k :: 0 <= k < |r| ==> Selected(r[k], years, months)
    ensures forall i :: 0 <= i < |rows| && Selected(rows[i], years, months) ==> rows[i] in r
    ensures years != {} && months != {} ==>
              |r| == |SelectedIndices(rows, years, months)|
              && forall k :: 0 <= k < |r| ==> r[k] == rows[SelectedIndices(rows, years, months)[k]]
  {
    if years != {} && months != {} then
      var r := Keep(rows, years, months);
      var idx := SelectedIndices(rows, years, months);
      assert forall i :: 0 <= i < |rows| && Selected(rows[i], years, months) ==> rows[i] in r by {
        forall i | 0 <= i < |rows| && Selected(rows[i], years, months)
          ensures rows[i] in r
        {
          var k :| 0 <= k < |idx| && idx[k] == i;
          assert r[k] == rows[i];
        }
      }
      r
    else []
  }

  /** Filtering never adds rows. */
  lemma FilterShrinks(rows: seq<Trip>, years: set<int>, months: set<int>)
    ensures |Filter(rows, years, months)| <= |rows|
  {
    if years != {} && months != {} {
      IndicesFit(rows, years, months);
    }
  }

  /** There are never more selected positions than rows. */
  lemma {:induction false} IndicesFit(rows: seq<Trip>, years: set<int>, months: set<int>)
    ensures |SelectedIndices(rows, years, months)| <= |rows|
    decreases |rows|
  {
    if rows != [] {
      IndicesFit(rows[..|rows| - 1], years, months);
    }
  }
}
