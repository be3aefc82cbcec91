/** A table cell that may be empty (a dataframe NaN / NaT). */
module Cells {

  datatype Cell<+T> = Missing | Present(value: T)

  /** `fillna(0)` on a numeric cell. */
  function FillZero(c: Cell<real>): (r: real)
    ensures c.Missing? ==> r == 0.0
    ensures c.Present? ==> r == c.value
  {
    match c
    case Missing => 0.0
    case Present(x) => x
  }

  /** Sum of a sequence of reals, accumulated front to back. */
  function Sum(xs: seq<real>): real
    decreases |xs|
  {
    if xs == [] then 0.0 else Sum(xs[..|xs| - 1]) + xs[|xs| - 1]
  }

  /** Appending an element adds it to the sum. */
  lemma SumSnoc(xs: seq<real>, x: real)
    ensures Sum(xs + [x]) == Sum(xs) + x
  {
    assert (xs + [x])[..|xs|] == xs;
  }

  /** Smallest element of a non-empty sequence. */
  function Min(xs: seq<real>): (m: real)
    requires xs != []
    ensures m in xs
    ensures forall i :: 0 <= i < |xs| ==> m <= xs[i]
    decreases |xs|
  {
    if |xs| == 1 then xs[0]
    else
      var m := Min(xs[..|xs| - 1]);
      assert forall i :: 0 <= i < |xs| - 1 ==> xs[..|xs| - 1][i] == xs[i];
      if xs[|xs| - 1] < m then xs[|xs| - 1] else m
  }

  /** Largest element of a non-empty sequence. */
  function Max(xs: seq<real>): (m: real)
    requires xs != []
    ensures m in xs
    ensures forall i :: 0 <= i < |xs| ==> xs[i] <= m
    decreases |xs|
  {
    if |xs| == 1 then xs[0]
    else
      var m := Max(xs[..|xs| - 1]);
      assert forall i :: 0 <= i < |xs| - 1 ==> xs[..|xs| - 1][i] == xs[i];
      if xs[|xs| - 1] > m then xs[|xs| - 1] else m
  }

  /**
   * Number of elements of a sequence, as a real (the denominator of a mean).
   * An arithmetic helper: stating the count as a recursive real keeps the
   * nonlinear mean bounds away from the int-to-real conversion.
   */
  function Size(xs: seq<real>): (n: real)
    ensures n == |xs| as real
    decreases |xs|
  {
    if xs == [] then 0.0 else Size(xs[..|xs| - 1]) + 1.0
  }

  /** Arithmetic mean of a non-empty sequence. */
  function Mean(xs: seq<real>): (m: real)
    requires xs != []
    ensures m * Size(xs) == Sum(xs)
  {
    Sum(xs) / Size(xs)
  }

  /** A lower bound of every element bounds the sum from below, n times over. */
  lemma {:induction false} SumAtLeast(xs: seq<real>, lo: real)
    requires forall i :: 0 <= i < |xs| ==> lo <= xs[i]
    ensures Size(xs) * lo <= Sum(xs)
    decreases |xs|
  {
    if xs != [] {
      var init := xs[..|xs| - 1];
      SumAtLeast(init, lo);
      AddBelow(Size(init), lo, Sum(init), xs[|xs| - 1]);
    }
  }

  /** An upper bound of every element bounds the sum from above, n times over. */
  lemma {:induction false} SumAtMost(xs: seq<real>, hi: real)
    requires forall i :: 0 <= i < |xs| ==> xs[i] <= hi
    ensures Sum(xs) <= Size(xs) * hi
    decreases |xs|
  {
    if xs != [] {
      var init := xs[..|xs| - 1];
      SumAtMost(init, hi);
      AddAbove(Size(init), hi, Sum(init), xs[|xs| - 1]);
    }
  }

  /** One inductive step of `SumAtLeast`, as plain real arithmetic. */
  lemma AddBelow(k: real, lo: real, s: real, x: real)
    requires k >= 0.0 && k * lo <= s && lo <= x
    ensures (k + 1.0) * lo <= s + x
  {
  }

  /** One inductive step of `SumAtMost`, as plain real arithmetic. */
  lemma AddAbove(k: real, hi: real, s: real, x: real)
    requires k >= 0.0 && s <= k * hi && x <= hi
    ensures s + x <= (k + 1.0) * hi
  {
  }

  /** Any bounds on every element of a non-empty sequence also bound its mean. */
  lemma MeanWithin(xs: seq<real>, lo: real, hi: real)
    requires xs != []
    requires forall i :: 0 <= i < |xs| ==> lo <= xs[i] <= hi
    ensures lo <= Mean(xs) <= hi
  {
    SumAtLeast(xs, lo);
    SumAtMost(xs, hi);
    Unscale(lo, hi, Mean(xs), Size(xs));
  }

  /** The mean of a non-empty sequence lies between its minimum and maximum. */
  lemma MeanBetweenMinAndMax(xs: seq<real>)
    requires xs != []
    ensures Min(xs) <= Mean(xs) <= Max(xs)
  {
    MeanWithin(xs, Min(xs), Max(xs));
  }

  /** Dividing bounds scaled by a positive count back out, as plain real arithmetic. */
  lemma Unscale(lo: real, hi: real, m: real, n: real)
    requires n > 0.0 && n * lo <= m * n <= n * hi
    ensures lo <= m <= hi
  {
  }
}
