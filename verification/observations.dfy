/** One row of the recovery history: a `YYYY-MM-DD` date string and the
    three recovery metrics recorded for that day. */
module Observations {
  import opened Options
  import opened Calendar
  import opened DateKeys

  /** The three series the recovery chart draws. */
  datatype Metric = Sleep | Hrv | Rhr

  /** One value per metric. */
  datatype Reading = Reading(sleep: int, hrv: int, rhr: int) {
    function Get(m: Metric): int {
      match m
      case Sleep => sleep
      case Hrv => hrv
      case Rhr => rhr
    }
  }

  /** A history row: its date string and the metrics recorded that day. */
  datatype Observation = Observation(date: string, reading: Reading) {
    function Value(m: Metric): int {
      reading.Get(m)
    }
  }

  /** The calendar day of a record's date string, read strictly as
      `YYYY-MM-DD` with a day that exists in its month; `None` stands for the
      invalid date `new Date(r.date)` gives otherwise. */
  function RecordDay(r: Observation): Option<Day> {
    ParseDateKey(r.date)
  }

  /** The `(year, month)` bucket key of a record; `None` is the bucket of
      records whose date does not parse (the `"NaN-NaN"` key). */
  function RecordMonth(r: Observation): Option<MonthKey> {
    match RecordDay(r)
    case Some(d) => Some(MonthOfDay(d))
    case None => None
  }

  /** A record has a month key exactly when its date string is the key of
      a four-digit-year day, and the key is then that day's month. */
  lemma RecordMonthOfKey(r: Observation)
    ensures RecordMonth(r).Some? <==> exists d: Day :: 0 <= d.year <= 9999 && FormatDateKey(d) == r.date
    ensures forall d: Day :: 0 <= d.year <= 9999 && FormatDateKey(d) == r.date ==> RecordMonth(r) == Some(MonthOfDay(d))
  {
    forall d: Day | 0 <= d.year <= 9999
      ensures FormatDateKey(d) == r.date <==> ParseDateKey(r.date) == Some(d)
    {
      KeyEqualsIffParses(r.date, d);
    }
  }

  /** Sum of one metric over a list of records (`reduce((sum, x) => sum + x.m, 0)`). */
  function Total(rs: seq<Observation>, m: Metric): int {
    if |rs| == 0 then 0 else Total(rs[..|rs| - 1], m) + rs[|rs| - 1].Value(m)
  }

  /** Smallest value of a metric in a non-empty list. */
  function MinValue(rs: seq<Observation>, m: Metric): (lo: int)
    requires |rs| > 0
    ensures exists i :: 0 <= i < |rs| && rs[i].Value(m) == lo
    ensures forall i :: 0 <= i < |rs| ==> lo <= rs[i].Value(m)
  {
    if |rs| == 1 then rs[0].Value(m)
    else
      var p := MinValue(rs[..|rs| - 1], m);
      var last := rs[|rs| - 1].Value(m);
      if last < p then last else p
  }

  /** Largest value of a metric in a non-empty list. */
  function MaxValue(rs: seq<Observation>, m: Metric): (hi: int)
    requires |rs| > 0
    ensures exists i :: 0 <= i < |rs| && rs[i].Value(m) == hi
    ensures forall i :: 0 <= i < |rs| ==> rs[i].Value(m) <= hi
  {
    if |rs| == 1 then rs[0].Value(m)
    else
      var p := MaxValue(rs[..|rs| - 1], m);
      var last := rs[|rs| - 1].Value(m);
      if last > p then last else p
  }

  /** The total lies between `n` times the minimum and `n` times the maximum. */
  lemma {:induction false} TotalBounds(rs: seq<Observation>, m: Metric, lo: int, hi: int)
    requires forall i :: 0 <= i < |rs| ==> lo <= rs[i].Value(m) <= hi
    ensures |rs| * lo <= Total(rs, m) <= |rs| * hi
  {
    if |rs| > 0 {
      var n := |rs| - 1;
      TotalBounds(rs[..n], m, lo, hi);
      assert Total(rs, m) == Total(rs[..n], m) + rs[n].Value(m);
      assert |rs| * lo == n * lo + lo && |rs| * hi == n * hi + hi;
    }
  }
}
