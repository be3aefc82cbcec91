/**
 * The trip table as the dashboard sees it after `read_csv` and `to_datetime`:
 * one record per ride booking, with the columns the pipeline reads.
 */
module Trips {
  import opened Cells

  /** A calendar date, the `.dt.date` part of a timestamp. */
  datatype Date = Date(year: int, month: int, day: int)

  /** Strict chronological order on calendar dates. */
  predicate Before(a: Date, b: Date)
  {
    a.year < b.year
    || (a.year == b.year && a.month < b.month)
    || (a.year == b.year && a.month == b.month && a.day < b.day)
  }

  /** An already-parsed `DateTime` value: a date and the time of day in seconds. */
  datatype Timestamp = Timestamp(date: Date, secondOfDay: nat)

  /**
   * One row of the table. `year` and `month` are the `Year` and `Month`
   * columns; every other column the pipeline reads may hold a missing cell.
   */
  datatype Trip = Trip(
    dateTime: Timestamp,
    year: int,
    month: int,
    bookingStatus: Cell<string>,
    customerId: Cell<string>,
    vehicleType: Cell<string>,
    avgVtat: Cell<real>,
    avgCtat: Cell<real>,
    bookingValue: Cell<real>,
    driverRatings: Cell<real>,
    customerRating: Cell<real>)

  /** The categorical columns used as grouping or counting keys. */
  datatype KeyColumn = BookingStatus | CustomerId | VehicleType

  /** The numeric columns that are summed, averaged or plotted. */
  datatype NumColumn = AvgVtat | AvgCtat | BookingValue | DriverRatings | CustomerRating

  /** `df[c]` for a key column, at one row. */
  function Key(t: Trip, c: KeyColumn): Cell<string>
  {
    match c
    case BookingStatus => t.bookingStatus
    case CustomerId => t.customerId
    case VehicleType => t.vehicleType
  }

  /** `df[c]` for a numeric column, at one row. */
  function Num(t: Trip, c: NumColumn): Cell<real>
  {
    match c
    case AvgVtat => t.avgVtat
    case AvgCtat => t.avgCtat
    case BookingValue => t.bookingValue
    case DriverRatings => t.driverRatings
    case CustomerRating => t.customerRating
  }

  /** Dates are totally ordered: distinct dates are comparable one way and not the other. */
  lemma BeforeIsStrictTotal(a: Date, b: Date, c: Date)
    ensures !Before(a, a)
    ensures a != b ==> (Before(a, b) <==> !Before(b, a))
    ensures Before(a, b) && Before(b, c) ==> Before(a, c)
  {
  }
}
