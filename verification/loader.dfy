/**
 * `load_data`: the parsed file becomes the trip table, with `Year` and
 * `Month` derived from `DateTime` when the file does not carry them.
 */
module Loader {
  import opened Trips

  /**
   * A parsed file: its rows, and whether it has a `Year` and a `Month`
   * column. When a column is absent the matching field of every row is a
   * placeholder that nothing reads.
   */
  datatype Frame = Frame(hasYear: bool, hasMonth: bool, rows: seq<Trip>)

  /** Why reading the file failed: a missing file, or any other read or parse error. */
  datatype LoadError = FileNotFound | ReadFailed(message: string)

  /** The outcome of reading the file, before or after normalisation. */
  datatype Loaded = Loaded(frame: Frame) | LoadFailed(error: LoadError)

  /** Year and month columns are present, so the filter can read them. */
  predicate Normalised(f: Frame)
  {
    f.hasYear && f.hasMonth
  }

  /** The row with its time-part columns taken from `DateTime` where the file lacks them. */
  function FillTimeParts(t: Trip, hasYear: bool, hasMonth: bool): Trip
  {
    t.(year := if hasYear then t.year else t.dateTime.date.year,
       month := if hasMonth then t.month else t.dateTime.date.month)
  }

  /** Derive the missing `Year`/`Month` columns from `DateTime`; keep existing ones. */
  function Normalise(f: Frame): (g: Frame)
    ensures Normalised(g)
    ensures |g.rows| == |f.rows|
    ensures forall i :: 0 <= i < |g.rows| ==>
              g.rows[i] == f.rows[i].(year := g.rows[i].year, month := g.rows[i].month)
    ensures forall i :: 0 <= i < |g.rows| ==>
              g.rows[i].year == (if f.hasYear then f.rows[i].year else f.rows[i].dateTime.date.year)
    ensures forall i :: 0 <= i < |g.rows| ==>
              g.rows[i].month == (if f.hasMonth then f.rows[i].month else f.rows[i].dateTime.date.month)
  {
    Frame(true, true, seq(|f.rows|, i requires 0 <= i < |f.rows| => FillTimeParts(f.rows[i], f.hasYear, f.hasMonth)))
  }

  /** A table that already has both columns is left exactly as it is. */
  lemma NormaliseKeepsNormalised(f: Frame)
    requires Normalised(f)
    ensures Normalise(f) == f
  {
    assert Normalise(f).rows == f.rows;
  }

  /** Normalising twice is normalising once. */
  lemma NormaliseIdempotent(f: Frame)
    ensures Normalise(Normalise(f)) == Normalise(f)
  {
    NormaliseKeepsNormalised(Normalise(f));
  }

  /** Normalise a successfully read file; pass a read failure through unchanged. */
  function Load(read: Loaded): (r: Loaded)
    ensures r.LoadFailed? <==> read.LoadFailed?
    ensures read.LoadFailed? ==> r.error == read.error
    ensures r.Loaded? ==> Normalised(r.frame) && |r.frame.rows| == |read.frame.rows|
    ensures r.Loaded? ==> forall i :: 0 <= i < |r.frame.rows| ==>
              r.frame.rows[i].dateTime == read.frame.rows[i].dateTime
    ensures r.Loaded? ==> forall i :: 0 <= i < |r.frame.rows| ==>
              r.frame.rows[i] == read.frame.rows[i].(
                year := if read.frame.hasYear then read.frame.rows[i].year else read.frame.rows[i].dateTime.date.year,
                month := if read.frame.hasMonth then read.frame.rows[i].month else read.frame.rows[i].dateTime.date.month)
  {
    match read
    case LoadFailed(e) => LoadFailed(e)
    case Loaded(f) => Loaded(Normalise(f))
  }
}
