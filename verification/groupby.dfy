/**
 * `groupby(key)[value].sum()` and `groupby(key)[value].mean().dropna()`.
 * Rows whose key is missing belong to no group.
 */
module GroupBy {
  import opened Cells
  import opened Trips
  import opened Columns

  /** The present values of column `v` within the group of key `k`. */
  function GroupValues(rows: seq<Trip>, kc: KeyColumn, vc: NumColumn, k: string): seq<real>
  {
    PresentValues(Group(rows, kc, k), vc)
  }

  /** Whether `m` holds the group sums of `rows`: every present key, each with its group's total. */
  ghost predicate SumsOf(m: map<string, real>, rows: seq<Trip>, kc: KeyColumn, vc: NumColumn)
  {
    && m.Keys == Keys(rows, kc)
    && forall k :: k in m ==> m[k] == Total(Group(rows, kc, k), vc)
  }

  /** Add one row to running group sums. */
  function AddToSums(m: map<string, real>, t: Trip, kc: KeyColumn, vc: NumColumn): map<string, real>
  {
    match Key(t, kc)
    case Missing => m
    case Present(k) => m[k := (if k in m then m[k] else 0.0) + FillZero(Num(t, vc))]
  }

  /** Folding the next row into the sums of the shorter table gives the sums of the longer one. */
  lemma AddToSumsStep(rows: seq<Trip>, kc: KeyColumn, vc: NumColumn, prev: map<string, real>)
    requires rows != []
    requires SumsOf(prev, rows[..|rows| - 1], kc, vc)
    ensures SumsOf(AddToSums(prev, rows[|rows| - 1], kc, vc), rows, kc, vc)
  {
    var m := AddToSums(prev, rows[|rows| - 1], kc, vc);
    forall k | k in m
      ensures m[k] == Total(Group(rows, kc, k), vc)
    {
      AddToSumsAt(rows, kc, vc, prev, k);
    }
  }

  /** The per-key half of `AddToSumsStep`: one entry after folding in the next row. */
  lemma AddToSumsAt(rows: seq<Trip>, kc: KeyColumn, vc: NumColumn, prev: map<string, real>, k: string)
    requires rows != []
    requires SumsOf(prev, rows[..|rows| - 1], kc, vc)
    requires k in AddToSums(prev, rows[|rows| - 1], kc, vc)
    ensures AddToSums(prev, rows[|rows| - 1], kc, vc)[k] == Total(Group(rows, kc, k), vc)
  {
    var n := |rows| - 1;
    var t := rows[n];
    if Key(t, kc) == Present(k) {
      TotalSnoc(Group(rows[..n], kc, k), t, vc);
    }
  }

  /**
   * `groupby(kc)[vc].sum()`: one entry per present key, each the sum of its
   * group with missing values counted as 0 (so an all-missing group sums to 0
   * and is kept).
   */
  function GroupSums(rows: seq<Trip>, kc: KeyColumn, vc: NumColumn): (m: map<string, real>)
    ensures m.Keys == Keys(rows, kc)
    ensures forall k :: k in m ==> m[k] == Total(Group(rows, kc, k), vc)
    decreases |rows|
  {
    if rows == [] then map[]
    else
      var prev := GroupSums(rows[..|rows| - 1], kc, vc);
      AddToSumsStep(rows, kc, vc, prev);
      AddToSums(prev, rows[|rows| - 1], kc, vc)
  }

  /** A group whose values are all missing sums to exactly 0. */
  lemma AllMissingGroupSumsToZero(rows: seq<Trip>, kc: KeyColumn, vc: NumColumn, k: string)
    requires k in Keys(rows, kc)
    requires GroupValues(rows, kc, vc, k) == []
    ensures k in GroupSums(rows, kc, vc) && GroupSums(rows, kc, vc)[k] == 0.0
  {
    TotalSkipsMissing(Group(rows, kc, k), vc);
  }

  /** Every group sum is the sum of that group's present values. */
  lemma GroupSumSkipsMissing(rows: seq<Trip>, kc: KeyColumn, vc: NumColumn, k: string)
    requires k in Keys(rows, kc)
    ensures GroupSums(rows, kc, vc)[k] == Sum(GroupValues(rows, kc, vc, k))
  {
    TotalSkipsMissing(Group(rows, kc, k), vc);
  }

  /** Running sum and count of the present values seen for one key. */
  datatype Acc = Acc(sum: real, count: nat)

  /** Whether `m` holds, per present key, the sum and count of its group's present values. */
  ghost predicate AccumulatedOf(m: map<string, Acc>, rows: seq<Trip>, kc: KeyColumn, vc: NumColumn)
  {
    && m.Keys == Keys(rows, kc)
    && forall k :: k in m ==> Summarises(m[k], GroupValues(rows, kc, vc, k))
  }

  /** `a` is the sum and the count of `xs`. */
  ghost predicate Summarises(a: Acc, xs: seq<real>)
  {
    a.sum == Sum(xs) && a.count == |xs|
  }

  /** Add one cell to a running sum and count; a missing cell changes nothing. */
  function AddValue(a: Acc, v: Cell<real>): Acc
  {
    match v
    case Missing => a
    case Present(x) => Acc(a.sum + x, a.count + 1)
  }

  /** Add one row to the running sums and counts. */
  function AddToAcc(m: map<string, Acc>, t: Trip, kc: KeyColumn, vc: NumColumn): map<string, Acc>
  {
    match Key(t, kc)
    case Missing => m
    case Present(k) => m[k := AddValue(if k in m then m[k] else Acc(0.0, 0), Num(t, vc))]
  }

  /** Adding a row's cell to a group's running sum and count keeps them those of the grown group. */
  lemma AddValueStep(a: Acc, g: seq<Trip>, t: Trip, vc: NumColumn)
    requires a.sum == Sum(PresentValues(g, vc)) && a.count == |PresentValues(g, vc)|
    ensures AddValue(a, Num(t, vc)).sum == Sum(PresentValues(g + [t], vc))
    ensures AddValue(a, Num(t, vc)).count == |PresentValues(g + [t], vc)|
  {
    PresentValuesSnoc(g, t, vc);
    if Num(t, vc).Present? {
      SumSnoc(PresentValues(g, vc), Num(t, vc).value);
    }
  }

  /** Folding the next row into the running sums and counts keeps them those of the longer table. */
  lemma AddToAccStep(rows: seq<Trip>, kc: KeyColumn, vc: NumColumn, prev: map<string, Acc>)
    requires rows != []
    requires AccumulatedOf(prev, rows[..|rows| - 1], kc, vc)
    ensures AccumulatedOf(AddToAcc(prev, rows[|rows| - 1], kc, vc), rows, kc, vc)
  {
    var n := |rows| - 1;
    var t := rows[n];
    var m := AddToAcc(prev, t, kc, vc);
    AccKeysStep(rows, kc, vc, prev);
    forall k | k in m
      ensures Summarises(m[k], GroupValues(rows, kc, vc, k))
    {
      AddToAccAt(rows, kc, vc, prev, k);
    }
  }

  /** Folding the next row into the running sums and counts adds its key, if present, to the keys. */
  lemma AccKeysStep(rows: seq<Trip>, kc: KeyColumn, vc: NumColumn, prev: map<string, Acc>)
    requires rows != []
    requires prev.Keys == Keys(rows[..|rows| - 1], kc)
    ensures AddToAcc(prev, rows[|rows| - 1], kc, vc).Keys == Keys(rows, kc)
  {
  }

  /** The per-key half of `AddToAccStep`: one entry after folding in the next row. */
  lemma AddToAccAt(rows: seq<Trip>, kc: KeyColumn, vc: NumColumn, prev: map<string, Acc>, k: string)
    requires rows != []
    requires AccumulatedOf(prev, rows[..|rows| - 1], kc, vc)
    requires k in AddToAcc(prev, rows[|rows| - 1], kc, vc)
    ensures Summarises(AddToAcc(prev, rows[|rows| - 1], kc, vc)[k], GroupValues(rows, kc, vc, k))
  {
    var n := |rows| - 1;
    var t := rows[n];
    var g := Group(rows[..n], kc, k);
    if Key(t, kc) == Present(k) {
      assert Group(rows, kc, k) == g + [t];
      AddValueStep(if k in prev then prev[k] else Acc(0.0, 0), g, t, vc);
    } else {
      assert Group(rows, kc, k) == g;
    }
  }

  /** One pass over the rows collecting, per key, the sum and count of its present values. */
  function Accumulate(rows: seq<Trip>, kc: KeyColumn, vc: NumColumn): (m: map<string, Acc>)
    ensures m.Keys == Keys(rows, kc)
    ensures forall k :: k in m ==>
              m[k].sum == Sum(GroupValues(rows, kc, vc, k))
              && m[k].count == |GroupValues(rows, kc, vc, k)|
    decreases |rows|
  {
    if rows == [] then map[]
    else
      var prev := Accumulate(rows[..|rows| - 1], kc, vc);
      AddToAccStep(rows, kc, vc, prev);
      AddToAcc(prev, rows[|rows| - 1], kc, vc)
  }

  /** The mean computed from a running sum and count. */
  function MeanOf(a: Acc): Cell<real>
  {
    if a.count == 0 then Missing else Present(a.sum / a.count as real)
  }

  /** A running sum and count of `xs` give `xs`'s mean, or missing when `xs` is empty. */
  lemma MeanOfAccumulated(a: Acc, xs: seq<real>)
    requires a.sum == Sum(xs) && a.count == |xs|
    ensures MeanOf(a).Missing? <==> xs == []
    ensures MeanOf(a).Present? ==> MeanOf(a).value == Mean(xs)
  {
    if xs != [] {
      assert a.count as real == Size(xs);
    }
  }

  /**
   * `groupby(kc)[vc].mean()`: one entry per present key; the mean of the
   * group's present values, or missing when the group has none.
   */
  function GroupMeans(rows: seq<Trip>, kc: KeyColumn, vc: NumColumn): (m: map<string, Cell<real>>)
    ensures m.Keys == Keys(rows, kc)
    ensures forall k :: k in m ==> (m[k].Missing? <==> GroupValues(rows, kc, vc, k) == [])
    ensures forall k :: k in m && m[k].Present? ==> m[k].value == Mean(GroupValues(rows, kc, vc, k))
  {
    var acc := Accumulate(rows, kc, vc);
    var m := map k | k in acc :: MeanOf(acc[k]);
    assert forall k :: k in m ==> m[k] == MeanOf(acc[k]);
    assert forall k :: k in m ==> (m[k].Missing? <==> GroupValues(rows, kc, vc, k) == [])
                                  && (m[k].Present? ==> m[k].value == Mean(GroupValues(rows, kc, vc, k))) by {
      forall k | k in m
        ensures m[k].Missing? <==> GroupValues(rows, kc, vc, k) == []
        ensures m[k].Present? ==> m[k].value == Mean(GroupValues(rows, kc, vc, k))
      {
        MeanOfAccumulated(acc[k], GroupValues(rows, kc, vc, k));
      }
    }
    m
  }

  /** `.dropna()` on a keyed series: drop the missing entries. */
  function DropMissing(m: map<string, Cell<real>>): (r: map<string, real>)
    ensures forall k :: k in r <==> k in m && m[k].Present?
    ensures forall k :: k in r ==> m[k] == Present(r[k])
  {
    map k | k in m && m[k].Present? :: m[k].value
  }

  /** Each entry of a `mean().dropna()` series lies within its group's value range. */
  lemma MeanWithinGroup(rows: seq<Trip>, kc: KeyColumn, vc: NumColumn, k: string)
    requires k in GroupMeans(rows, kc, vc) && GroupMeans(rows, kc, vc)[k].Present?
    ensures GroupValues(rows, kc, vc, k) != []
    ensures Min(GroupValues(rows, kc, vc, k)) <= GroupMeans(rows, kc, vc)[k].value
            <= Max(GroupValues(rows, kc, vc, k))
  {
    MeanBetweenMinAndMax(GroupValues(rows, kc, vc, k));
  }

  /**
   * `groupby(kc)[vc].mean().dropna()`: groups with no present value are
   * omitted; every emitted mean lies between the smallest and the largest
   * present value of its group.
   */
  function MeansBy(rows: seq<Trip>, kc: KeyColumn, vc: NumColumn): (m: map<string, real>)
    ensures forall k :: k in m <==> k in Keys(rows, kc) && GroupValues(rows, kc, vc, k) != []
    ensures forall k :: k in m ==> m[k] == Mean(GroupValues(rows, kc, vc, k))
    ensures forall k :: k in m ==>
              GroupValues(rows, kc, vc, k) != []
              && Min(GroupValues(rows, kc, vc, k)) <= m[k] <= Max(GroupValues(rows, kc, vc, k))
  {
    var means := GroupMeans(rows, kc, vc);
    var m := DropMissing(means);
    assert forall k :: k in m ==>
              GroupValues(rows, kc, vc, k) != []
              && Min(GroupValues(rows, kc, vc, k)) <= m[k] <= Max(GroupValues(rows, kc, vc, k)) by {
      forall k | k in m
        ensures GroupValues(rows, kc, vc, k) != []
        ensures Min(GroupValues(rows, kc, vc, k)) <= m[k] <= Max(GroupValues(rows, kc, vc, k))
      {
        MeanWithinGroup(rows, kc, vc, k);
      }
    }
    m
  }
}
