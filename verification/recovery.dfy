/** The three views of the recovery chart (week, month, year) built from
    the history records and a fixed "today", and the timeframe switch that
    picks one of them. */
module Recovery {
  import opened Options
  import opened Calendar
  import opened DateKeys
  import opened Observations
  import opened Rounding
  import opened MonthBuckets

  /** A chart label. The text the page shows is locale formatting of these
      fields: "<day> <short month name>" and "<short month name>". */
  datatype Label =
    | DayLabel(dayOfMonth: int, month: MonthOfYear)
    | MonthLabel(month: MonthOfYear)
    | InvalidDateLabel

  /** One bucket of a view: its label and, unless it is a gap, one value per metric. */
  datatype Point = Point(bucketLabel: Label, values: Option<Reading>)

  /** `{ labels, datasets: { sleep, hrv, rhr } }`. */
  datatype AlignedSeries = AlignedSeries(
    labels: seq<Label>,
    sleep: seq<Option<int>>,
    hrv: seq<Option<int>>,
    rhr: seq<Option<int>>)
  {
    function Series(m: Metric): seq<Option<int>> {
      match m
      case Sleep => sleep
      case Hrv => hrv
      case Rhr => rhr
    }

    /** Every metric series is as long as the labels, so index `k` of each
        names the same bucket. */
    predicate Aligned() {
      |sleep| == |labels| && |hrv| == |labels| && |rhr| == |labels|
    }

    /** A bucket is a gap in all three series or in none. */
    predicate GapsTogether()
      requires Aligned()
    {
      forall k, m1, m2 :: 0 <= k < |labels| ==> (Series(m1)[k].None? <==> Series(m2)[k].None?)
    }
  }

  function ValueOf(values: Option<Reading>, m: Metric): Option<int> {
    match values
    case Some(v) => Some(v.Get(m))
    case None => None
  }

  /** Splits a list of buckets into the label array and one array per metric. */
  function Assemble(points: seq<Point>): (v: AlignedSeries)
    ensures v.Aligned() && |v.labels| == |points| && v.GapsTogether()
    ensures forall k :: 0 <= k < |points| ==> v.labels[k] == points[k].bucketLabel
    ensures forall k, m :: 0 <= k < |points| ==> v.Series(m)[k] == ValueOf(points[k].values, m)
  {
    AlignedSeries(
      seq(|points|, k requires 0 <= k < |points| => points[k].bucketLabel),
      seq(|points|, k requires 0 <= k < |points| => ValueOf(points[k].values, Sleep)),
      seq(|points|, k requires 0 <= k < |points| => ValueOf(points[k].values, Hrv)),
      seq(|points|, k requires 0 <= k < |points| => ValueOf(points[k].values, Rhr)))
  }

  function DayLabelOf(d: Ymd): Label {
    DayLabel(d.day, d.month)
  }

  /** The label of a record's date: `new Date(day.date)` formatted as
      "<day> <month>", or the invalid-date text when the string is no date. */
  function WeekLabel(date: string): Label {
    match ParseDateKey(date)
    case Some(d) => DayLabelOf(d)
    case None => InvalidDateLabel
  }

  // ----- Week -----

  /** `getWeekData`: one bucket per record, in input order, whatever the
      number of records and whatever their dates. */
  function WeekView(rs: seq<Observation>): (v: AlignedSeries)
    ensures v.Aligned() && |v.labels| == |rs|
    ensures forall k :: 0 <= k < |rs| ==> v.labels[k] == WeekLabel(rs[k].date)
    ensures forall k, m :: 0 <= k < |rs| ==> v.Series(m)[k] == Some(rs[k].Value(m))
  {
    Assemble(seq(|rs|, k requires 0 <= k < |rs| => Point(WeekLabel(rs[k].date), Some(rs[k].reading))))
  }

  // ----- Month -----

  const MonthViewDays: nat := 30

  /** The 30 days of the month view, oldest first, ending with `today`. */
  function MonthWindow(today: Day): (w: seq<Day>)
    ensures |w| == MonthViewDays
  {
    DaysEndingAt(today, MonthViewDays)
  }

  /** `i` is the first record whose date string equals `key`. */
  predicate IsFirstWithDate(rs: seq<Observation>, i: int, key: string) {
    0 <= i < |rs| && rs[i].date == key && forall j :: 0 <= j < i ==> rs[j].date != key
  }

  /** `rawHistory.find(item => item.date === key)`, as an index. */
  function FindByDate(rs: seq<Observation>, key: string): (r: Option<nat>)
    ensures r.Some? ==> IsFirstWithDate(rs, r.value, key)
    ensures r.None? ==> forall j :: 0 <= j < |rs| ==> rs[j].date != key
  {
    if |rs| == 0 then None
    else if rs[0].date == key then Some(0)
    else match FindByDate(rs[1..], key)
      case Some(i) => Some(i + 1)
      case None => None
  }

  function MonthPoint(rs: seq<Observation>, d: Day): Point {
    Point(DayLabelOf(d),
      match FindByDate(rs, FormatDateKey(d))
      case Some(i) => Some(rs[i].reading)
      case None => None)
  }

  /** One bucket per given day: the first record dated that day, or a gap. */
  function DailyView(rs: seq<Observation>, days: seq<Day>): (v: AlignedSeries)
    ensures v.Aligned() && |v.labels| == |days| && v.GapsTogether()
    ensures forall k :: 0 <= k < |days| ==> v.labels[k] == DayLabelOf(days[k])
    ensures forall k, m :: 0 <= k < |days| ==>
      (v.Series(m)[k].None? <==> forall i :: 0 <= i < |rs| ==> rs[i].date != FormatDateKey(days[k]))
    ensures forall k, i, m :: 0 <= k < |days| && IsFirstWithDate(rs, i, FormatDateKey(days[k])) ==>
      v.Series(m)[k] == Some(rs[i].Value(m))
  {
    var points := seq(|days|, k requires 0 <= k < |days| => MonthPoint(rs, days[k]));
    MonthPointsLookup(rs, days, points);
    Assemble(points)
  }

  /** `getMonthData`: 30 buckets, one per day ending at `today`; a bucket
      holds the metrics of the first record dated that day, or is a gap in
      all three series when no record has that date. */
  function MonthView(rs: seq<Observation>, today: Day): (v: AlignedSeries)
    ensures v.Aligned() && |v.labels| == MonthViewDays && v.GapsTogether()
    ensures forall k :: 0 <= k < MonthViewDays ==> v.labels[k] == DayLabelOf(MonthWindow(today)[k])
    ensures forall k, m :: 0 <= k < MonthViewDays ==>
      (v.Series(m)[k].None? <==> forall i :: 0 <= i < |rs| ==> rs[i].date != FormatDateKey(MonthWindow(today)[k]))
  {
    DailyView(rs, MonthWindow(today))
  }

  /** A month-view bucket whose day some record carries holds the metrics of
      the first such record in input order. */
  lemma MonthViewFirstMatch(rs: seq<Observation>, today: Day, k: nat, i: nat)
    requires k < MonthViewDays
    ensures var v := MonthView(rs, today);
      IsFirstWithDate(rs, i, FormatDateKey(MonthWindow(today)[k])) ==>
        v.sleep[k] == Some(rs[i].reading.sleep) && v.hrv[k] == Some(rs[i].reading.hrv) && v.rhr[k] == Some(rs[i].reading.rhr)
  {
    if IsFirstWithDate(rs, i, FormatDateKey(MonthWindow(today)[k])) {
      DailyViewFirstMatch(rs, MonthWindow(today), k, i);
    }
  }

  lemma DailyViewFirstMatch(rs: seq<Observation>, days: seq<Day>, k: nat, i: nat)
    requires k < |days|
    requires IsFirstWithDate(rs, i, FormatDateKey(days[k]))
    ensures var v := DailyView(rs, days);
      v.sleep[k] == Some(rs[i].reading.sleep) && v.hrv[k] == Some(rs[i].reading.hrv) && v.rhr[k] == Some(rs[i].reading.rhr)
  {
    var v := DailyView(rs, days);
    assert v.Series(Sleep)[k] == Some(rs[i].Value(Sleep));
    assert v.Series(Hrv)[k] == Some(rs[i].Value(Hrv));
    assert v.Series(Rhr)[k] == Some(rs[i].Value(Rhr));
  }

  lemma MonthPointsLookup(rs: seq<Observation>, w: seq<Day>, points: seq<Point>)
    requires |points| == |w| && forall k :: 0 <= k < |w| ==> points[k] == MonthPoint(rs, w[k])
    ensures forall k, m :: 0 <= k < |w| ==>
      (ValueOf(points[k].values, m).None? <==> forall i :: 0 <= i < |rs| ==> rs[i].date != FormatDateKey(w[k]))
    ensures forall k, i, m :: 0 <= k < |w| && IsFirstWithDate(rs, i, FormatDateKey(w[k])) ==>
      ValueOf(points[k].values, m) == Some(rs[i].Value(m))
  {
    forall k | 0 <= k < |w| {
      MonthPointLookup(rs, w[k]);
    }
  }

  lemma FirstWithDateUnique(rs: seq<Observation>, i: int, j: int, key: string)
    requires IsFirstWithDate(rs, i, key) && IsFirstWithDate(rs, j, key)
    ensures i == j
  {
  }

  /** A day's bucket is a gap exactly when no record carries its key, and
      otherwise holds the first such record's metrics. */
  lemma MonthPointLookup(rs: seq<Observation>, d: Day)
    ensures forall m :: ValueOf(MonthPoint(rs, d).values, m).None? <==>
      forall i :: 0 <= i < |rs| ==> rs[i].date != FormatDateKey(d)
    ensures forall i, m :: IsFirstWithDate(rs, i, FormatDateKey(d)) ==>
      ValueOf(MonthPoint(rs, d).values, m) == Some(rs[i].Value(m))
  {
    var key := FormatDateKey(d);
    match FindByDate(rs, key)
    case Some(j) =>
      forall i | IsFirstWithDate(rs, i, key)
        ensures i == j
      {
        FirstWithDateUnique(rs, i, j, key);
      }
    case None =>
  }

  /** For a four-digit-year "today", the 30 window days have four-digit
      years and pairwise different date keys. */
  lemma MonthWindowKeys(today: Day)
    requires 1 <= today.year <= 9999
    ensures forall j :: 0 <= j < MonthViewDays ==> 0 <= MonthWindow(today)[j].year <= 9999
    ensures forall a, b ::
      (0 <= a < MonthViewDays && 0 <= b < MonthViewDays &&
       FormatDateKey(MonthWindow(today)[a]) == FormatDateKey(MonthWindow(today)[b])) ==> a == b
  {
    var w := MonthWindow(today);
    DaysEndingAtNumbers(today, MonthViewDays);
    forall j | 0 <= j < MonthViewDays
      ensures 0 <= w[j].year <= 9999
    {
      RecentDayYear(today, w[j]);
    }
    forall a, b | 0 <= a < MonthViewDays && 0 <= b < MonthViewDays && FormatDateKey(w[a]) == FormatDateKey(w[b])
      ensures a == b
    {
      ParseFormat(w[a]);
      ParseFormat(w[b]);
    }
  }

  /** Records dated with the last `|rs|` window days, in order. */
  predicate EndsTodayDaily(rs: seq<Observation>, today: Day) {
    |rs| <= MonthViewDays &&
    forall k :: 0 <= k < |rs| ==> rs[k].date == FormatDateKey(MonthWindow(today)[MonthViewDays - |rs| + k])
  }

  /** The week view agrees with the month view on records that are one per
      day, in date order, ending today (the input the week view is written
      for): week bucket `k` is month bucket `30 - |rs| + k`, label and values. */
  lemma WeekBucketInMonthView(rs: seq<Observation>, today: Day, k: nat)
    requires 1 <= today.year <= 9999 && EndsTodayDaily(rs, today) && k < |rs|
    ensures forall m :: MonthView(rs, today).Series(m)[MonthViewDays - |rs| + k] == WeekView(rs).Series(m)[k]
    ensures MonthView(rs, today).labels[MonthViewDays - |rs| + k] == WeekView(rs).labels[k]
  {
    var w := MonthWindow(today);
    var j := MonthViewDays - |rs| + k;
    MonthWindowKeys(today);
    forall i | 0 <= i < k
      ensures rs[i].date != FormatDateKey(w[j])
    {
      assert rs[i].date == FormatDateKey(w[MonthViewDays - |rs| + i]);
    }
    MonthViewFirstMatch(rs, today, j, k);
    ParseFormat(w[j]);
  }

  /** ... and the month buckets before those are gaps. */
  lemma GapBeforeWeekInMonthView(rs: seq<Observation>, today: Day, j: nat)
    requires 1 <= today.year <= 9999 && EndsTodayDaily(rs, today) && j < MonthViewDays - |rs|
    ensures forall m :: MonthView(rs, today).Series(m)[j].None?
  {
    var w := MonthWindow(today);
    MonthWindowKeys(today);
    forall i | 0 <= i < |rs|
      ensures rs[i].date != FormatDateKey(w[j])
    {
      assert rs[i].date == FormatDateKey(w[MonthViewDays - |rs| + i]);
    }
  }

  // ----- Year -----

  /** Mean of each metric over a non-empty bucket, rounded like `Math.round`. */
  function MeanReading(items: seq<Observation>): Reading
    requires |items| > 0
  {
    Reading(
      RoundHalfUpMean(Total(items, Sleep), |items|),
      RoundHalfUpMean(Total(items, Hrv), |items|),
      RoundHalfUpMean(Total(items, Rhr), |items|))
  }

  function YearPoint(buckets: seq<Bucket>, key: MonthKey): Point {
    Point(MonthLabel(key.month),
      match Lookup(buckets, Some(key))
      case Some(items) => if |items| > 0 then Some(MeanReading(items)) else None
      case None => None)
  }

  lemma YearPointsFacts(rs: seq<Observation>, months: seq<MonthKey>, points: seq<Point>)
    requires |points| == |months|
    requires forall k :: 0 <= k < |months| ==> points[k] == YearPoint(GroupByMonth(rs), months[k])
    ensures forall k, m :: 0 <= k < |months| ==>
      (ValueOf(points[k].values, m).None? <==> InMonth(rs, Some(months[k])) == [])
    ensures forall k, m :: 0 <= k < |months| && InMonth(rs, Some(months[k])) != [] ==>
      ValueOf(points[k].values, m) ==
        Some(RoundHalfUpMean(Total(InMonth(rs, Some(months[k])), m), |InMonth(rs, Some(months[k]))|))
  {
    forall k | 0 <= k < |months| {
      LookupGroup(rs, Some(months[k]));
    }
  }

  /** One bucket per given month: the rounded mean of that month's records,
      or a gap in all three series when the month has none. */
  function MonthlyView(rs: seq<Observation>, months: seq<MonthKey>): (v: AlignedSeries)
    ensures v.Aligned() && |v.labels| == |months| && v.GapsTogether()
    ensures forall k :: 0 <= k < |months| ==> v.labels[k] == MonthLabel(months[k].month)
    ensures forall k, m :: 0 <= k < |months| ==>
      (v.Series(m)[k].None? <==> InMonth(rs, Some(months[k])) == [])
  {
    var buckets := GroupByMonth(rs);
    var points := seq(|months|, k requires 0 <= k < |months| => YearPoint(buckets, months[k]));
    YearPointsFacts(rs, months, points);
    Assemble(points)
  }

  /** A month with records holds, per metric, the rounded mean of exactly
      that month's records. */
  lemma MonthlyViewMean(rs: seq<Observation>, months: seq<MonthKey>, k: nat, m: Metric)
    requires k < |months|
    requires InMonth(rs, Some(months[k])) != []
    ensures var items := InMonth(rs, Some(months[k]));
      MonthlyView(rs, months).Series(m)[k] == Some(RoundHalfUpMean(Total(items, m), |items|))
  {
    var points := seq(|months|, k requires 0 <= k < |months| => YearPoint(GroupByMonth(rs), months[k]));
    YearPointsFacts(rs, months, points);
  }

  const YearViewMonths: nat := 12

  /** The 12 months of the year view, oldest first, ending with today's month. */
  function YearWindow(today: Day): (w: seq<MonthKey>)
    ensures |w| == YearViewMonths
  {
    MonthsEndingAt(MonthOfDay(today), YearViewMonths)
  }

  /** `getYearData`: 12 buckets, one per month ending at today's month. */
  function YearView(rs: seq<Observation>, today: Day): (v: AlignedSeries)
    ensures v.Aligned() && |v.labels| == YearViewMonths && v.GapsTogether()
    ensures forall k :: 0 <= k < YearViewMonths ==> v.labels[k] == MonthLabel(YearWindow(today)[k].month)
    ensures forall k, m :: 0 <= k < YearViewMonths ==>
      (v.Series(m)[k].None? <==> InMonth(rs, Some(YearWindow(today)[k])) == [])
  {
    MonthlyView(rs, YearWindow(today))
  }

  /** The year window is twelve consecutive months ending at today's month,
      so no two of its month labels coincide. */
  lemma YearWindowShape(today: Day)
    ensures YearWindow(today)[YearViewMonths - 1] == MonthOfDay(today)
    ensures forall k :: 0 < k < YearViewMonths ==> YearWindow(today)[k - 1] == PrevMonth(YearWindow(today)[k])
    ensures forall j, k :: 0 <= j < k < YearViewMonths ==> YearWindow(today)[j].month != YearWindow(today)[k].month
  {
    var w := YearWindow(today);
    forall k | 0 < k < YearViewMonths
      ensures w[k - 1] == PrevMonth(w[k])
    {
      MonthsEndingAtConsecutive(MonthOfDay(today), YearViewMonths, k);
    }
    forall j, k | 0 <= j < k < YearViewMonths
      ensures w[j].month != w[k].month
    {
      assert MonthIndex(w[k]) - MonthIndex(w[j]) == k - j;
    }
  }

  /** A month with records shows the rounded mean of its records, which
      lies between their smallest and largest value of that metric. */
  lemma YearValueWithinBucket(rs: seq<Observation>, today: Day, k: nat, m: Metric)
    requires k < YearViewMonths
    requires InMonth(rs, Some(YearWindow(today)[k])) != []
    ensures var items := InMonth(rs, Some(YearWindow(today)[k]));
      && YearView(rs, today).Series(m)[k] == Some(RoundHalfUpMean(Total(items, m), |items|))
      && MinValue(items, m) <= YearView(rs, today).Series(m)[k].value <= MaxValue(items, m)
  {
    var items := InMonth(rs, Some(YearWindow(today)[k]));
    MonthlyViewMean(rs, YearWindow(today), k, m);
    TotalBounds(items, m, MinValue(items, m), MaxValue(items, m));
    RoundedMeanWithin(Total(items, m), |items|, MinValue(items, m), MaxValue(items, m));
  }

  // ----- Year window as the source computes it -----

  /** The bucket month for `i` months back as the year loop computes it:
      `setMonth(getMonth() - i)` keeps today's day of month, so a day past
      the end of the target month rolls over into the following month, and
      only then does `setDate(1)` move to the first of the month. */
  function RolledMonthAsWritten(today: Day, i: nat): MonthKey {
    var t := MonthsBack(MonthOfDay(today), i);
    if today.day > DaysInMonth(t.year, t.month) then NextMonth(t) else t
  }

  /** The months the year loop visits as written: each is the intended
      month or the one after it, and the last is today's own month. */
  function YearWindowAsWritten(today: Day): (w: seq<MonthKey>)
    ensures |w| == YearViewMonths
    ensures w[YearViewMonths - 1] == MonthOfDay(today)
    ensures forall k :: 0 <= k < YearViewMonths ==>
      w[k] == YearWindow(today)[k] || w[k] == NextMonth(YearWindow(today)[k])
  {
    var w := seq(YearViewMonths, k requires 0 <= k < YearViewMonths => RolledMonthAsWritten(today, YearViewMonths - 1 - k));
    var intended := YearWindow(today);
    forall k | 0 <= k < YearViewMonths
      ensures w[k] == intended[k] || w[k] == NextMonth(intended[k])
    {
      var t := MonthsBack(MonthOfDay(today), YearViewMonths - 1 - k);
      MonthIndexInjective(t, intended[k]);
    }
    MonthIndexInjective(MonthsBack(MonthOfDay(today), 0), MonthOfDay(today));
    w
  }

  /** On 31 March the loop visits March twice and never February: the
      previous month has fewer days, so its bucket date rolls into March. */
  lemma YearWindowAsWrittenRepeatsMonth()
    ensures var w := YearWindowAsWritten(Ymd(2026, 3, 31));
      w[10] == MonthKey(2026, 3) && w[11] == MonthKey(2026, 3) && MonthKey(2026, 2) !in w
  {
    var today: Day := Ymd(2026, 3, 31);
    var w := YearWindowAsWritten(today);
    RolledMarch(0);
    RolledMarch(1);
    assert w[10] == RolledMonthAsWritten(today, 1);
    assert w[11] == RolledMonthAsWritten(today, 0);
    forall k | 0 <= k < 10
      ensures w[k] != MonthKey(2026, 2)
    {
      assert w[k] == RolledMonthAsWritten(today, YearViewMonths - 1 - k);
      RolledMarchBefore(YearViewMonths - 1 - k);
    }
    assert forall k :: 0 <= k < |w| ==> w[k] != MonthKey(2026, 2);
  }

  lemma RolledMarch(i: nat)
    requires i <= 1
    ensures RolledMonthAsWritten(Ymd(2026, 3, 31), i) == MonthKey(2026, 3)
  {
    var t := MonthsBack(MonthKey(2026, 3), i);
    if i == 1 {
      MonthIndexInjective(t, MonthKey(2026, 2));
    } else {
      MonthIndexInjective(t, MonthKey(2026, 3));
    }
  }

  lemma RolledMarchBefore(i: nat)
    requires i >= 2
    ensures RolledMonthAsWritten(Ymd(2026, 3, 31), i) != MonthKey(2026, 2)
  {
    var t := MonthsBack(MonthKey(2026, 3), i);
    if i == 2 {
      MonthIndexInjective(t, MonthKey(2026, 1));
    } else {
      assert MonthIndex(RolledMonthAsWritten(Ymd(2026, 3, 31), i)) <= MonthIndex(t) + 1;
    }
  }

  /** So the as-written year view shows the same month label twice. */
  lemma YearViewAsWrittenRepeatsLabel(rs: seq<Observation>)
    ensures var v := MonthlyView(rs, YearWindowAsWritten(Ymd(2026, 3, 31)));
      v.labels[10] == v.labels[11] == MonthLabel(3)
  {
    YearWindowAsWrittenRepeatsMonth();
  }

  /** Up to the 28th of a month every month has the day, nothing rolls over,
      and the loop visits the intended twelve months. */
  lemma YearWindowAsWrittenEarlyInMonth(today: Day)
    requires today.day <= 28
    ensures YearWindowAsWritten(today) == YearWindow(today)
  {
    var a, b := YearWindowAsWritten(today), YearWindow(today);
    forall k | 0 <= k < YearViewMonths
      ensures a[k] == b[k]
    {
      var t := MonthsBack(MonthOfDay(today), YearViewMonths - 1 - k);
      assert DaysInMonth(t.year, t.month) >= 28;
      assert a[k] == RolledMonthAsWritten(today, YearViewMonths - 1 - k) == t;
      MonthIndexInjective(a[k], b[k]);
    }
  }

  // ----- Timeframe switch -----

  /** `recoveryData[timeframe]`, when the key is one of the three views. */
  function RecoveryData(rs: seq<Observation>, today: Day, timeframe: string): Option<AlignedSeries> {
    if timeframe == "1W" then Some(WeekView(rs))
    else if timeframe == "1M" then Some(MonthView(rs, today))
    else if timeframe == "1Y" then Some(YearView(rs, today))
    else None
  }

  /** A timeframe button click: the chart shows the requested view, and an
      unknown timeframe leaves the shown view as it was. */
  function SwitchTimeframe(shown: AlignedSeries, rs: seq<Observation>, today: Day, timeframe: string): (v: AlignedSeries)
    ensures shown.Aligned() ==> v.Aligned()
    ensures |v.labels| ==
      if timeframe == "1W" then |rs|
      else if timeframe == "1M" then MonthViewDays
      else if timeframe == "1Y" then YearViewMonths
      else |shown.labels|
    ensures timeframe == "1W" ==> v == WeekView(rs)
    ensures timeframe == "1M" ==> v == MonthView(rs, today)
    ensures timeframe == "1Y" ==> v == YearView(rs, today)
    ensures timeframe !in {"1W", "1M", "1Y"} ==> v == shown
  {
    match RecoveryData(rs, today, timeframe)
    case Some(view) => view
    case None => shown
  }
}
