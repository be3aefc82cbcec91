/** The customer and driver rating distributions of the Overview page. */
module Ratings {
  import opened Trips
  import opened Columns

  /** `s[s > 0]`: drop the sentinel "not rated" values (zero or below), keeping order. */
  function Rated(xs: seq<real>): (r: seq<real>)
    ensures forall i :: 0 <= i < |r| ==> r[i] > 0.0
    ensures forall x :: x > 0.0 ==> multiset(r)[x] == multiset(xs)[x]
    ensures |r| <= |xs|
    decreases |xs|
  {
    if xs == [] then []
    else
      var n := |xs| - 1;
      assert xs == xs[..n] + [xs[n]];
      var prev := Rated(xs[..n]);
      if xs[n] > 0.0 then prev + [xs[n]] else prev
  }

  /**
   * `df[c].dropna()` then `[> 0]`: the ratings that are plotted. No missing
   * cell and no sentinel survives; every positive rating does, as often as it occurs.
   */
  function Distribution(rows: seq<Trip>, c: NumColumn): (r: seq<real>)
    ensures forall i :: 0 <= i < |r| ==> r[i] > 0.0
    ensures forall x :: x > 0.0 ==> multiset(r)[x] == Occurrences(rows, c, x)
    ensures forall x :: x <= 0.0 ==> x !in r
    ensures |r| <= |rows|
  {
    Rated(PresentValues(rows, c))
  }
}
