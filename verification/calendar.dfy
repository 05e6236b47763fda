/** Proleptic Gregorian calendar arithmetic in a single time zone: calendar
    days, their predecessor, a day numbering that turns "n days before" into
    subtraction, and (year, month) keys with borrow across the year boundary.
    This is the part of the JavaScript `Date` object that the chart code
    relies on when it walks days and months backwards from "today". */
module Calendar {

  type MonthOfYear = m: int | 1 <= m <= 12 witness 1

  predicate IsLeapYear(y: int) {
    y % 4 == 0 && (y % 100 != 0 || y % 400 == 0)
  }

  function DaysInMonth(y: int, m: MonthOfYear): (n: int)
    ensures 28 <= n <= 31
    ensures n == 29 <==> m == 2 && IsLeapYear(y)
  {
    if m == 2 then (if IsLeapYear(y) then 29 else 28)
    else if m == 4 || m == 6 || m == 9 || m == 11 then 30
    else 31
  }

  /** A (year, month, day) triple; only the `Day` subset denotes a date. */
  datatype Ymd = Ymd(year: int, month: MonthOfYear, day: int)

  predicate IsCalendarDay(d: Ymd) {
    1 <= d.day <= DaysInMonth(d.year, d.month)
  }

  type Day = d: Ymd | IsCalendarDay(d) witness Ymd(1970, 1, 1)

  /** Days from 1 January of year 1 to 1 January of year `y`. Division by a
      positive constant rounds toward negative infinity, so this also holds
      for years before 1. */
  function DaysBeforeYear(y: int): int {
    var p := y - 1;
    365 * p + p / 4 - p / 100 + p / 400
  }

  /** Days from 1 January of year `y` to the first day of month `m`. */
  function DaysBeforeMonth(y: int, m: MonthOfYear): int {
    var common :=
      if m == 1 then 0 else if m == 2 then 31 else if m == 3 then 59
      else if m == 4 then 90 else if m == 5 then 120 else if m == 6 then 151
      else if m == 7 then 181 else if m == 8 then 212 else if m == 9 then 243
      else if m == 10 then 273 else if m == 11 then 304 else 334;
    common + (if m > 2 && IsLeapYear(y) then 1 else 0)
  }

  /** Position of a day on the line of all days: 0 is 1 January of year 1. */
  function DayNumber(d: Ymd): int {
    DaysBeforeYear(d.year) + DaysBeforeMonth(d.year, d.month) + d.day - 1
  }

  /** Stepping `x` by one raises `x / k` by one exactly at multiples of `k`. */
  lemma FloorDivStep(x: int, k: int)
    requires k == 4 || k == 100 || k == 400
    ensures x / k - (x - 1) / k == if x % k == 0 then 1 else 0
  {
    var q, r := x / k, x % k;
    assert x == q * k + r && 0 <= r < k;
    if r == 0 {
      assert x - 1 == (q - 1) * k + (k - 1);
    } else {
      assert x - 1 == q * k + (r - 1);
    }
  }

  /** A multiple of 400 is a multiple of 100, which is a multiple of 4. */
  lemma DivisibilityChain(y: int)
    ensures y % 400 == 0 ==> y % 100 == 0
    ensures y % 100 == 0 ==> y % 4 == 0
  {
    var q4, q100, q400 := y / 4, y / 100, y / 400;
    if y % 400 == 0 {
      assert y == 400 * q400 == 100 * (4 * q400);
    }
    if y % 100 == 0 {
      assert y == 100 * q100 == 4 * (25 * q100);
    }
  }

  lemma YearLength(y: int)
    ensures DaysBeforeYear(y + 1) - DaysBeforeYear(y) == if IsLeapYear(y) then 366 else 365
  {
    FloorDivStep(y, 4);
    FloorDivStep(y, 100);
    FloorDivStep(y, 400);
    DivisibilityChain(y);
    var a, b, c := y / 4 - (y - 1) / 4, y / 100 - (y - 1) / 100, y / 400 - (y - 1) / 400;
    assert DaysBeforeYear(y + 1) - DaysBeforeYear(y) == 365 + a - b + c;
  }

  lemma MonthLength(y: int, m: MonthOfYear)
    requires m < 12
    ensures DaysBeforeMonth(y, m + 1) - DaysBeforeMonth(y, m) == DaysInMonth(y, m)
  {
  }

  /** The calendar day before `d`, borrowing from the month and the year. */
  function PrevDay(d: Day): Day {
    if d.day > 1 then Ymd(d.year, d.month, d.day - 1)
    else if d.month > 1 then Ymd(d.year, d.month - 1, DaysInMonth(d.year, d.month - 1))
    else Ymd(d.year - 1, 12, 31)
  }

  /** The day before is one step down the day numbering, also across the end
      of a month or a year. */
  lemma PrevDayNumber(d: Day)
    ensures DayNumber(PrevDay(d)) == DayNumber(d) - 1
  {
    if d.day == 1 && d.month > 1 {
      MonthLength(d.year, d.month - 1);
    } else if d.day == 1 {
      YearLength(d.year - 1);
    }
  }

  /** The day `n` days before `d`, what `setDate(getDate() - n)` computes. */
  function DaysBack(d: Day, n: nat): Day {
    if n == 0 then d else PrevDay(DaysBack(d, n - 1))
  }

  lemma {:induction false} DaysBackNumber(d: Day, n: nat)
    ensures DayNumber(DaysBack(d, n)) == DayNumber(d) - n
  {
    if n > 0 {
      DaysBackNumber(d, n - 1);
      PrevDayNumber(DaysBack(d, n - 1));
    }
  }

  lemma {:induction false} DaysBackFromPrev(d: Day, n: nat)
    ensures DaysBack(PrevDay(d), n) == DaysBack(d, n + 1)
  {
    if n > 0 {
      DaysBackFromPrev(d, n - 1);
    }
  }

  /** The `count` consecutive days that end with `last`, oldest first:
      entry `k` is `count - 1 - k` days before `last`, as produced by
      `setDate(getDate() - i)` for `i` from `count - 1` down to 0. */
  function DaysEndingAt(last: Day, count: nat): (w: seq<Day>)
    ensures |w| == count
    ensures forall k :: 0 <= k < count ==> w[k] == DaysBack(last, count - 1 - k)
    decreases count
  {
    if count == 0 then []
    else
      var w := DaysEndingAt(PrevDay(last), count - 1) + [last];
      assert forall k :: 0 <= k < count - 1 ==> w[k] == DaysBack(last, count - 1 - k) by {
        forall k | 0 <= k < count - 1
          ensures w[k] == DaysBack(last, count - 1 - k)
        {
          DaysBackFromPrev(last, count - 2 - k);
        }
      }
      w
  }

  /** Entry `k` of the window is `count - 1 - k` steps down the day
      numbering from `last`, so the window ends at `last`. */
  lemma DaysEndingAtNumbers(last: Day, count: nat)
    ensures count > 0 ==> DaysEndingAt(last, count)[count - 1] == last
    ensures forall k :: 0 <= k < count ==>
      DayNumber(DaysEndingAt(last, count)[k]) == DayNumber(last) - (count - 1 - k)
  {
    var w := DaysEndingAt(last, count);
    forall k | 0 <= k < count
      ensures DayNumber(w[k]) == DayNumber(last) - (count - 1 - k)
    {
      assert w[k] == DaysBack(last, count - 1 - k);
      DaysBackNumber(last, count - 1 - k);
    }
    if count > 0 {
      assert w[count - 1] == DaysBack(last, 0) == last;
    }
  }

  /** Neighbouring entries of the window are neighbouring days, also across
      the end of a month or a year. */
  lemma DaysEndingAtConsecutive(last: Day, count: nat, k: nat)
    requires 0 < k < count
    ensures DaysEndingAt(last, count)[k - 1] == PrevDay(DaysEndingAt(last, count)[k])
  {
  }

  /** A day's number lies within the span of its own year. */
  lemma DayNumberWithinYear(d: Day)
    ensures DaysBeforeYear(d.year) <= DayNumber(d) < DaysBeforeYear(d.year + 1)
  {
    YearLength(d.year);
  }

  /** Years are at least 365 days long, so day numbers grow with the year. */
  lemma {:induction false} DaysBeforeYearGrows(a: int, b: int)
    requires a <= b
    ensures DaysBeforeYear(a) + 365 * (b - a) <= DaysBeforeYear(b)
    decreases b - a
  {
    if a < b {
      DaysBeforeYearGrows(a, b - 1);
      YearLength(b - 1);
    }
  }

  /** A day less than a year before `last` falls in `last`'s year or the
      one before it. */
  lemma RecentDayYear(last: Day, d: Day)
    requires DayNumber(last) - 365 < DayNumber(d) <= DayNumber(last)
    ensures last.year - 1 <= d.year <= last.year
  {
    DayNumberWithinYear(d);
    DayNumberWithinYear(last);
    if d.year <= last.year - 2 {
      DaysBeforeYearGrows(d.year + 1, last.year - 1);
      DaysBeforeYearGrows(last.year - 1, last.year);
    }
    if d.year > last.year {
      DaysBeforeYearGrows(last.year + 1, d.year);
    }
  }

  // ----- Months -----

  datatype MonthKey = MonthKey(year: int, month: MonthOfYear)

  function MonthOfDay(d: Ymd): MonthKey {
    MonthKey(d.year, d.month)
  }

  /** Months counted from January of year 0. */
  function MonthIndex(k: MonthKey): int {
    12 * k.year + k.month - 1
  }

  lemma MonthIndexInjective(a: MonthKey, b: MonthKey)
    requires MonthIndex(a) == MonthIndex(b)
    ensures a == b
  {
  }

  function PrevMonth(k: MonthKey): (p: MonthKey)
    ensures MonthIndex(p) == MonthIndex(k) - 1
  {
    if k.month > 1 then MonthKey(k.year, k.month - 1) else MonthKey(k.year - 1, 12)
  }

  function NextMonth(k: MonthKey): (n: MonthKey)
    ensures MonthIndex(n) == MonthIndex(k) + 1
    ensures PrevMonth(n) == k
  {
    if k.month < 12 then MonthKey(k.year, k.month + 1) else MonthKey(k.year + 1, 1)
  }

  /** The month `i` months before `k`: the month field is shifted and any
      borrow is carried into the year, as `setMonth(getMonth() - i)` does. */
  function MonthsBack(k: MonthKey, i: nat): (r: MonthKey)
    ensures MonthIndex(r) == MonthIndex(k) - i
  {
    var t := MonthIndex(k) - i;
    MonthKey(t / 12, t % 12 + 1)
  }

  /** The `count` consecutive months that end with `last`, oldest first. */
  function MonthsEndingAt(last: MonthKey, count: nat): (w: seq<MonthKey>)
    ensures |w| == count
    ensures count > 0 ==> w[count - 1] == last
    ensures forall k :: 0 <= k < count ==> MonthIndex(w[k]) == MonthIndex(last) - (count - 1 - k)
  {
    var w := seq(count, k requires 0 <= k < count => MonthsBack(last, count - 1 - k));
    if count > 0 then MonthIndexInjective(w[count - 1], last); w else w
  }

  /** Neighbouring entries of the month window are neighbouring months, with
      the year borrowed when January is passed. */
  lemma MonthsEndingAtConsecutive(last: MonthKey, count: nat, k: nat)
    requires 0 < k < count
    ensures MonthsEndingAt(last, count)[k - 1] == PrevMonth(MonthsEndingAt(last, count)[k])
  {
    var w := MonthsEndingAt(last, count);
    MonthIndexInjective(w[k - 1], PrevMonth(w[k]));
  }
}
