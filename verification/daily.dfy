/**
 * The Revenue page's trend line: `groupby(df['DateTime'].dt.date)['Booking Value'].sum()`,
 * one point per calendar date in ascending date order.
 */
module Daily {
  import opened Cells
  import opened Trips
  import opened Columns

  /** One point of the daily revenue series. */
  datatype DayRevenue = DayRevenue(date: Date, revenue: real)

  /** The calendar date of a trip. */
  function DateOf(t: Trip): Date
  {
    t.dateTime.date
  }

  /** The rows of one calendar date, in table order. */
  function OnDate(rows: seq<Trip>, d: Date): seq<Trip>
    decreases |rows|
  {
    if rows == [] then []
    else
      var n := |rows| - 1;
      OnDate(rows[..n], d) + (if DateOf(rows[n]) == d then [rows[n]] else [])
  }

  /** The distinct calendar dates of the rows. */
  function Dates(rows: seq<Trip>): (ds: set<Date>)
    ensures forall d :: d !in ds ==> OnDate(rows, d) == []
    decreases |rows|
  {
    if rows == [] then {} else Dates(rows[..|rows| - 1]) + {DateOf(rows[|rows| - 1])}
  }

  /** The dates of a series. */
  function DatesOf(s: seq<DayRevenue>): set<Date>
    decreases |s|
  {
    if s == [] then {} else {s[0].date} + DatesOf(s[1..])
  }

  /** Strictly ascending dates, hence no date twice. */
  predicate Ascending(s: seq<DayRevenue>)
  {
    forall i, j :: 0 <= i < j < |s| ==> Before(s[i].date, s[j].date)
  }

  /** The revenue the series records for date `d`, 0 when `d` is absent. */
  function RevenueOn(s: seq<DayRevenue>, d: Date): real
    decreases |s|
  {
    if s == [] then 0.0 else (if s[0].date == d then s[0].revenue else 0.0) + RevenueOn(s[1..], d)
  }

  /** Add `v` to the point of date `d`, creating it in date order when absent. */
  function AddOn(s: seq<DayRevenue>, d: Date, v: real): (r: seq<DayRevenue>)
    ensures r != [] && (r[0].date == d || (s != [] && r[0].date == s[0].date))
    decreases |s|
  {
    if s == [] then [DayRevenue(d, v)]
    else if s[0].date == d then [DayRevenue(d, s[0].revenue + v)] + s[1..]
    else if Before(d, s[0].date) then [DayRevenue(d, v)] + s
    else [s[0]] + AddOn(s[1..], d, v)
  }

  /** Adding to a date changes that date's revenue only, and adds that date. */
  lemma {:induction false} AddOnRevenue(s: seq<DayRevenue>, d: Date, v: real)
    ensures DatesOf(AddOn(s, d, v)) == DatesOf(s) + {d}
    ensures forall d' :: RevenueOn(AddOn(s, d, v), d') == RevenueOn(s, d') + (if d' == d then v else 0.0)
    decreases |s|
  {
    if s != [] && s[0].date != d && !Before(d, s[0].date) {
      AddOnRevenue(s[1..], d, v);
      assert AddOn(s, d, v)[1..] == AddOn(s[1..], d, v);
    }
  }

  /** Adding to a date keeps the series in ascending date order. */
  lemma {:induction false} AddOnKeepsAscending(s: seq<DayRevenue>, d: Date, v: real)
    requires Ascending(s)
    ensures Ascending(AddOn(s, d, v))
    decreases |s|
  {
    if s != [] && s[0].date != d && !Before(d, s[0].date) {
      var rest := AddOn(s[1..], d, v);
      AddOnKeepsAscending(s[1..], d, v);
      BeforeIsStrictTotal(s[0].date, d, d);
      assert Before(s[0].date, rest[0].date);
      forall j | 0 < j < |rest|
        ensures Before(s[0].date, rest[j].date)
      {
        BeforeIsStrictTotal(s[0].date, rest[0].date, rest[j].date);
      }
      assert AddOn(s, d, v) == [s[0]] + rest;
    }
  }

  /** Whether `s` records, for every date, the total booking value of the rows on that date. */
  ghost predicate RevenueOf(s: seq<DayRevenue>, rows: seq<Trip>)
  {
    forall d :: RevenueOn(s, d) == Total(OnDate(rows, d), BookingValue)
  }

  /** The point added for one more row. */
  function AddRow(s: seq<DayRevenue>, t: Trip): seq<DayRevenue>
  {
    AddOn(s, DateOf(t), FillZero(t.bookingValue))
  }

  /** Folding the next row into the series keeps each date's revenue that of the longer table. */
  lemma AddRowAt(rows: seq<Trip>, prev: seq<DayRevenue>, d: Date)
    requires rows != []
    requires RevenueOf(prev, rows[..|rows| - 1])
    ensures RevenueOn(AddRow(prev, rows[|rows| - 1]), d) == Total(OnDate(rows, d), BookingValue)
  {
    var n := |rows| - 1;
    var t := rows[n];
    AddOnRevenue(prev, DateOf(t), FillZero(t.bookingValue));
    if DateOf(t) == d {
      assert OnDate(rows, d) == OnDate(rows[..n], d) + [t];
      TotalSnoc(OnDate(rows[..n], d), t, BookingValue);
    } else {
      assert OnDate(rows, d) == OnDate(rows[..n], d);
    }
  }

  /** Folding the next row keeps the series ascending, with the longer table's dates and revenues. */
  lemma AddRowStep(rows: seq<Trip>, prev: seq<DayRevenue>)
    requires rows != []
    requires Ascending(prev) && DatesOf(prev) == Dates(rows[..|rows| - 1])
    requires RevenueOf(prev, rows[..|rows| - 1])
    ensures Ascending(AddRow(prev, rows[|rows| - 1]))
    ensures DatesOf(AddRow(prev, rows[|rows| - 1])) == Dates(rows)
    ensures RevenueOf(AddRow(prev, rows[|rows| - 1]), rows)
  {
    var t := rows[|rows| - 1];
    AddOnRevenue(prev, DateOf(t), FillZero(t.bookingValue));
    AddOnKeepsAscending(prev, DateOf(t), FillZero(t.bookingValue));
    forall d
      ensures RevenueOn(AddRow(prev, t), d) == Total(OnDate(rows, d), BookingValue)
    {
      AddRowAt(rows, prev, d);
    }
  }

  /**
   * The daily revenue series: strictly ascending dates, exactly the dates of
   * the rows, each date's revenue the sum of its booking values with a
   * missing value counted as 0.
   */
  function DailySeries(rows: seq<Trip>): (r: seq<DayRevenue>)
    ensures Ascending(r)
    ensures DatesOf(r) == Dates(rows)
    ensures forall d :: RevenueOn(r, d) == Total(OnDate(rows, d), BookingValue)
    decreases |rows|
  {
    if rows == [] then []
    else
      var prev := DailySeries(rows[..|rows| - 1]);
      AddRowStep(rows, prev);
      AddRow(prev, rows[|rows| - 1])
  }

  /** In an ascending series the revenue recorded for a point's date is that point's revenue. */
  lemma {:induction false} AscendingPointRevenue(s: seq<DayRevenue>, i: nat)
    requires Ascending(s) && i < |s|
    ensures RevenueOn(s, s[i].date) == s[i].revenue
    decreases |s|
  {
    assert Ascending(s[1..]);
    if i == 0 {
      HeadDateOnce(s);
      AbsentDateZero(s[1..], s[0].date);
    } else {
      assert s[i] == s[1..][i - 1];
      AscendingPointRevenue(s[1..], i - 1);
      BeforeIsStrictTotal(s[0].date, s[i].date, s[i].date);
    }
  }

  /** A date absent from a series has revenue 0 there. */
  lemma {:induction false} AbsentDateZero(s: seq<DayRevenue>, d: Date)
    requires d !in DatesOf(s)
    ensures RevenueOn(s, d) == 0.0
    decreases |s|
  {
    if s != [] {
      AbsentDateZero(s[1..], d);
    }
  }

  /** The first date of an ascending series does not occur again. */
  lemma HeadDateOnce(s: seq<DayRevenue>)
    requires Ascending(s) && s != []
    ensures s[0].date !in DatesOf(s[1..])
  {
    DatesOfMembers(s[1..]);
    if s[0].date in DatesOf(s[1..]) {
      var j :| 0 <= j < |s[1..]| && s[1..][j].date == s[0].date;
      assert s[j + 1] == s[1..][j];
      BeforeIsStrictTotal(s[0].date, s[0].date, s[0].date);
    }
  }

  /** An ascending series has one point per date. */
  lemma {:induction false} AscendingSize(s: seq<DayRevenue>)
    requires Ascending(s)
    ensures |DatesOf(s)| == |s|
    decreases |s|
  {
    if s != [] {
      assert Ascending(s[1..]);
      AscendingSize(s[1..]);
      HeadDateOnce(s);
    }
  }

  /** Every date of a series is the date of one of its points. */
  lemma {:induction false} DatesOfMembers(s: seq<DayRevenue>)
    ensures forall d :: d in DatesOf(s) ==> exists j :: 0 <= j < |s| && s[j].date == d
    decreases |s|
  {
    if s != [] {
      DatesOfMembers(s[1..]);
      forall d | d in DatesOf(s[1..])
        ensures exists j :: 0 <= j < |s| && s[j].date == d
      {
        var j :| 0 <= j < |s[1..]| && s[1..][j].date == d;
        assert s[j + 1].date == d;
      }
    }
  }

  /** What the trend line shows: nothing when no booking value is present, else the daily series. */
  datatype Trend = NoBookingValues | Series(days: seq<DayRevenue>)

  /**
   * The Revenue page's trend: drawn only when some booking value is present;
   * then one point per distinct date of the rows, dates strictly ascending,
   * each point the sum of that date's present booking values.
   */
  function RevenueTrend(rows: seq<Trip>): (t: Trend)
    ensures t.NoBookingValues? <==> forall i :: 0 <= i < |rows| ==> rows[i].bookingValue.Missing?
    ensures t.Series? ==> Ascending(t.days) && DatesOf(t.days) == Dates(rows) && |t.days| == |Dates(rows)|
    ensures t.Series? ==> forall i :: 0 <= i < |t.days| ==>
              t.days[i].revenue == Sum(PresentValues(OnDate(rows, t.days[i].date), BookingValue))
  {
    if PresentValues(rows, BookingValue) == [] then NoBookingValues
    else
      var s := DailySeries(rows);
      AscendingSize(s);
      assert forall i :: 0 <= i < |s| ==>
               s[i].revenue == Sum(PresentValues(OnDate(rows, s[i].date), BookingValue)) by {
        forall i | 0 <= i < |s|
          ensures s[i].revenue == Sum(PresentValues(OnDate(rows, s[i].date), BookingValue))
        {
          AscendingPointRevenue(s, i);
          TotalSkipsMissing(OnDate(rows, s[i].date), BookingValue);
        }
      }
      Series(s)
  }
}
