/**
 * One render of the dashboard: filter the loaded table by the sidebar
 * selection, stop when nothing is left, otherwise compute the summaries of
 * the chosen page from the filtered rows.
 */
module Dashboard {
  import opened Cells
  import opened Trips
  import opened Loader
  import opened Selection
  import opened Columns
  import opened Ratings
  import opened GroupBy
  import opened Counts
  import opened Daily

  /** The page chosen in the sidebar. */
  datatype Page = Overview | TripExperience | Revenue

  /** The three KPI tiles of the Overview page. */
  datatype Kpis = Kpis(totalTrips: nat, totalValue: real, uniqueCustomers: nat)

  /** What one render shows below the sidebar. */
  datatype View =
    | NoData
    | OverviewPage(kpis: Kpis, statusCounts: seq<Count>, customerRatings: seq<real>, driverRatings: seq<real>)
    | TripExperiencePage(statusCounts: seq<Count>, vtatByVehicle: map<string, real>, ctatByVehicle: map<string, real>)
    | RevenuePage(revenueByVehicle: map<string, real>, trend: Trend)

  /** The whole screen: the load error, or the rendered dashboard. */
  datatype Screen = Unavailable(error: LoadError) | Shown(view: View)

  /**
   * Total trips, total booking value (missing counted as 0) and distinct
   * customers. The booking total equals the sum of the present values, and
   * there are never more distinct customers than trips.
   */
  function KeyFigures(rows: seq<Trip>): (k: Kpis)
    ensures k.totalTrips == |rows|
    ensures k.totalValue == Sum(PresentValues(rows, BookingValue))
    ensures k.uniqueCustomers == |Keys(rows, CustomerId)| <= k.totalTrips
    ensures k.uniqueCustomers == 0 <==> forall i :: 0 <= i < |rows| ==> rows[i].customerId.Missing?
  {
    TotalSkipsMissing(rows, BookingValue);
    var customers := Keys(rows, CustomerId);
    assert customers == {} <==> forall i :: 0 <= i < |rows| ==> rows[i].customerId.Missing? by {
      if customers != {} {
        var k :| k in customers;
        KeysArePresentValues(rows, CustomerId, k);
      } else {
        forall i | 0 <= i < |rows|
          ensures rows[i].customerId.Missing?
        {
          if rows[i].customerId.Present? {
            KeysArePresentValues(rows, CustomerId, rows[i].customerId.value);
          }
        }
      }
    }
    Kpis(|rows|, Total(rows, BookingValue), |customers|)
  }

  /** The summaries of one page, computed from a non-empty filtered table. */
  function PageView(rows: seq<Trip>, page: Page): (v: View)
    requires rows != []
    ensures !v.NoData?
    ensures v.OverviewPage? <==> page == Overview
    ensures v.TripExperiencePage? <==> page == TripExperience
    ensures v.RevenuePage? <==> page == Revenue
    ensures v.OverviewPage? ==>
              v.kpis.totalTrips == |rows| >= 1 && v.kpis.uniqueCustomers <= v.kpis.totalTrips
              && KeysOf(v.statusCounts) == Keys(rows, BookingStatus)
              && CountTotal(v.statusCounts) <= v.kpis.totalTrips
    ensures v.OverviewPage? ==>
              (forall x :: x in v.customerRatings ==> x > 0.0)
              && (forall x :: x in v.driverRatings ==> x > 0.0)
    ensures v.TripExperiencePage? ==>
              KeysOf(v.statusCounts) == Keys(rows, BookingStatus) && CountTotal(v.statusCounts) <= |rows|
    ensures v.TripExperiencePage? ==> v.vtatByVehicle.Keys <= Keys(rows, VehicleType)
                                       && v.ctatByVehicle.Keys <= Keys(rows, VehicleType)
    ensures v.RevenuePage? ==> v.revenueByVehicle.Keys == Keys(rows, VehicleType)
    // The values shown, not only their keys.
    ensures v.OverviewPage? ==>
              v.kpis.totalValue == Sum(PresentValues(rows, BookingValue))
              && v.kpis.uniqueCustomers == |Keys(rows, CustomerId)|
    ensures v.OverviewPage? ==>
              (forall x :: x > 0.0 ==> multiset(v.customerRatings)[x] == Occurrences(rows, CustomerRating, x))
              && (forall x :: x > 0.0 ==> multiset(v.driverRatings)[x] == Occurrences(rows, DriverRatings, x))
    ensures v.OverviewPage? || v.TripExperiencePage? ==>
              Descending(v.statusCounts)
              && forall i :: 0 <= i < |v.statusCounts| ==>
                   v.statusCounts[i].n == |Group(rows, BookingStatus, v.statusCounts[i].key)|
    ensures v.OverviewPage? || v.TripExperiencePage? ==>
              (forall i, j :: 0 <= i < j < |v.statusCounts| ==> v.statusCounts[i].key != v.statusCounts[j].key)
              && CountTotal(v.statusCounts) == PresentCount(rows, BookingStatus)
    ensures v.TripExperiencePage? ==>
              (forall k :: k in v.vtatByVehicle <==>
                 k in Keys(rows, VehicleType) && GroupValues(rows, VehicleType, AvgVtat, k) != [])
              && (forall k :: k in v.vtatByVehicle ==> v.vtatByVehicle[k] == Mean(GroupValues(rows, VehicleType, AvgVtat, k)))
    ensures v.TripExperiencePage? ==>
              (forall k :: k in v.ctatByVehicle <==>
                 k in Keys(rows, VehicleType) && GroupValues(rows, VehicleType, AvgCtat, k) != [])
              && (forall k :: k in v.ctatByVehicle ==> v.ctatByVehicle[k] == Mean(GroupValues(rows, VehicleType, AvgCtat, k)))
    ensures v.RevenuePage? ==>
              forall k :: k in v.revenueByVehicle ==>
                v.revenueByVehicle[k] == Total(Group(rows, VehicleType, k), BookingValue)
    ensures v.RevenuePage? ==>
              (v.trend.NoBookingValues? <==> forall i :: 0 <= i < |rows| ==> rows[i].bookingValue.Missing?)
              && (v.trend.Series? ==> Ascending(v.trend.days) && DatesOf(v.trend.days) == Dates(rows))
    ensures v.RevenuePage? && v.trend.Series? ==>
              forall i :: 0 <= i < |v.trend.days| ==>
                v.trend.days[i].revenue == Sum(PresentValues(OnDate(rows, v.trend.days[i].date), BookingValue))
  {
    match page
    case Overview =>
      OverviewPage(KeyFigures(rows), ValueCounts(rows, BookingStatus),
                   Distribution(rows, CustomerRating), Distribution(rows, DriverRatings))
    case TripExperience =>
      TripExperiencePage(ValueCounts(rows, BookingStatus),
                         MeansBy(rows, VehicleType, AvgVtat), MeansBy(rows, VehicleType, AvgCtat))
    case Revenue =>
      RevenuePage(GroupSums(rows, VehicleType, BookingValue), RevenueTrend(rows))
  }

  /**
   * One render: an empty filtered table halts the page before any summary
   * is computed (this covers an empty year or month selection); otherwise
   * the chosen page, its summaries taken over the filtered rows.
   */
  function Render(rows: seq<Trip>, years: set<int>, months: set<int>, page: Page): (v: View)
    ensures v.NoData? <==> Filter(rows, years, months) == []
    ensures years == {} || months == {} ==> v.NoData?
    ensures (forall i :: 0 <= i < |rows| ==> !Selected(rows[i], years, months)) ==> v.NoData?
    ensures !v.NoData? ==> (v.OverviewPage? <==> page == Overview) && (v.TripExperiencePage? <==> page == TripExperience)
    ensures v.OverviewPage? ==>
              v.kpis.totalTrips == |Filter(rows, years, months)|
              && KeysOf(v.statusCounts) == Keys(Filter(rows, years, months), BookingStatus)
    ensures v.TripExperiencePage? ==>
              KeysOf(v.statusCounts) == Keys(Filter(rows, years, months), BookingStatus)
              && v.vtatByVehicle.Keys <= Keys(Filter(rows, years, months), VehicleType)
              && v.ctatByVehicle.Keys <= Keys(Filter(rows, years, months), VehicleType)
    ensures v.RevenuePage? ==> v.revenueByVehicle.Keys == Keys(Filter(rows, years, months), VehicleType)
  {
    var filtered := Filter(rows, years, months);
    if filtered == [] then NoData else PageView(filtered, page)
  }

  /** The script as a whole: a failed load shows only the error; a good one renders the dashboard. */
  function Show(read: Loaded, years: set<int>, months: set<int>, page: Page): (s: Screen)
    ensures s.Unavailable? <==> read.LoadFailed?
    ensures s.Unavailable? ==> s.error == read.error
    ensures s.Shown? ==> s.view == Render(Normalise(read.frame).rows, years, months, page)
  {
    match Load(read)
    case LoadFailed(e) => Unavailable(e)
    case Loaded(f) => Shown(Render(f.rows, years, months, page))
  }
}
