# Health charts: recovery views and biomarker trends

A Dafny model of the data side of `health-charts.js`, the script behind a
personal health page. The script does two things.

- It draws a **recovery chart** of three metrics (sleep score, HRV, resting
  heart rate) from a list of dated records. There are three timeframes:
  - `1W`: one point per record.
  - `1M`: 30 days ending today. Each day shows the first record with that
    date, or a gap.
  - `1Y`: 12 months ending with today's month. Each month shows the rounded
    mean of its records, or a gap.

  A button switches between the three views.
- It shows a **biomarker trend on hover**. The script scrapes every period
  table of the page into one dated history per marker. A number is read out
  of each value cell, each history is sorted by date, and a marker's trend
  is offered only when it has more than one value.

The modules follow that structure:

| module | file | concept |
|---|---|---|
| `Options` | options.dfy | optional values (`null` / absent) |
| `Calendar` | calendar.dfy | proleptic Gregorian days and months, day and month windows |
| `DateKeys` | date_keys.dfy | the `YYYY-MM-DD` key (`formatDateKey`) and its strict reading |
| `Observations` | observations.dfy | a history record, its three metrics, sums, minimum and maximum |
| `Rounding` | rounding.dfy | `Math.round` of a mean |
| `MonthBuckets` | month_buckets.dfy | the `(year, month)` bucketing of the year view |
| `Recovery` | recovery.dfy | the week, month and year views and the timeframe switch |
| `ValueParsing` | value_parsing.dfy | `parseValue`, the leftmost number in a cell's text |
| `Histories` | histories.dfy | scraping, the per-marker stable date sort, the trend guard |

In the model the things the script reads from its environment are
parameters:
- The record list is `rs`.
- "Today" is `today`, a calendar day. The script fixes it at 2026-02-03.
- The clicked timeframe is a string.
- The page's biomarker tables are a list of `Period` values. Each period
  holds its heading text, the instant the heading denotes (`rawDate`, an
  abstract integer timestamp) and its marker cells in document order.

Where a comment and the code disagree, the model follows the code:
- The comment in `getWeekData` says the week view holds exactly 7 days.
  The code emits one bucket per record, whatever the number of records and
  whatever their dates, and so does `Recovery.WeekView`.
  `Recovery.WeekBucketInMonthView` and `Recovery.GapBeforeWeekInMonthView`
  prove that on the input the week view is written for, the week view is
  the tail of the month view. That input is at most 30 records, one per day,
  in date order, ending today.
- The comment in `getYearData` gives "Feb 2025 - Jan 2026" as its example
  of the last 12 months. With the script's fixed today, 2026-02-03, that
  window ends with the month before today's. The loop runs down to `i = 0`,
  so its last bucket is today's own month, and the window is March 2025 to
  February 2026. `Recovery.YearWindow` ends with today's month, as the code
  does.

## Model

| member | source | states |
|---|---|---|
| DateKeys.FormatDateKey | health-charts.js:33 | For a four-digit year, the key has length 10 with dashes at positions 4 and 7. Any other year starts with a sign, never a digit, so it never equals a four-digit key. |
| DateKeys.ParseFormat | health-charts.js:33 | Reading a formatted key back gives the same calendar day. |
| DateKeys.FormatParse | health-charts.js:77 | A string that reads as a day is exactly that day's key, so the date-equality test in `find` can only match canonical `YYYY-MM-DD` strings. |
| DateKeys.KeyEqualsIffParses | health-charts.js:77 | For a four-digit-year day, a record date equals the day's key if and only if it reads as that day. |
| Calendar.PrevDayNumber | health-charts.js:70 | Stepping back one calendar day lowers the absolute day number by exactly one, across month, year and leap-day boundaries. |
| Calendar.DaysEndingAt | health-charts.js:68-70 | The window of `count` days ending at `last` has length `count`, and entry `k` lies `count-1-k` days before `last`. |
| Calendar.DaysEndingAtNumbers | health-charts.js:68-70 | The window ends with `last`, and its day numbers are consecutive. |
| Calendar.DaysEndingAtConsecutive | health-charts.js:68-70 | Neighbouring buckets of the window are neighbouring calendar days, also across the end of a month or a year. |
| Calendar.MonthsEndingAt | health-charts.js:110-118 | The window of `count` months ending at `last` has length `count`, ends with `last`, and entry `k` lies `count-1-k` months before it. |
| Recovery.WeekView | health-charts.js:41-59 | One bucket per record, in input order. Bucket `k` is labelled with record `k`'s date and holds record `k`'s three metrics, with no gaps. |
| Recovery.DailyView | health-charts.js:67-87 | One bucket per given day, labelled with that day. A bucket is a gap in every series exactly when no record's date equals the day's key. Otherwise it holds the first matching record's metrics. |
| Recovery.MonthView | health-charts.js:61-89 | 30 aligned buckets, gaps in all three series together, labelled with the 30 days ending today. A bucket is a gap if and only if no record carries its date. |
| Recovery.FindByDate | health-charts.js:77 | `find` by date string: the index found is the first record with that date, and nothing is found exactly when no record has it. |
| Recovery.MonthViewFirstMatch | health-charts.js:76-81 | A month bucket whose date several records carry holds the metrics of the first of them in input order. |
| Recovery.MonthWindowKeys | health-charts.js:68-71 | For a four-digit-year today, the 30 window days have four-digit years and pairwise different keys. |
| Recovery.WeekBucketInMonthView | health-charts.js:41-89 | For records one per day ending today, week bucket `k` and month bucket `30-|rs|+k` have the same label and values. |
| Recovery.GapBeforeWeekInMonthView | health-charts.js:61-89 | For such records, the month buckets before the first record's day are gaps. |
| Observations.RecordMonthOfKey | health-charts.js:103-104 | A record has a `(year, month)` key exactly when its date string is the key of some four-digit-year day, and then the key is that day's month. Any other date falls in the invalid-date bucket. |
| MonthBuckets.GroupByMonthIsGrouping | health-charts.js:100-107 | The buckets have pairwise distinct keys. Each bucket holds exactly the records of its month, in input order, and is non-empty. Every record's month has a bucket, and no record is lost or duplicated. |
| MonthBuckets.AddKeepsGrouping | health-charts.js:105-106 | Pushing one more record onto its month's bucket turns a grouping of the earlier records into a grouping of all of them. |
| MonthBuckets.InMonthMember | health-charts.js:102-106 | A record is in a month's list if and only if it is an input record of that month. |
| MonthBuckets.LookupGroup | health-charts.js:118-121 | Looking a month up gives that month's records in input order, or nothing when it has none. |
| MonthBuckets.RecordInOwnBucket | health-charts.js:102-106 | A record is found under a key if and only if the key is its own month. |
| Rounding.RoundHalfUpMeanIsNearest | health-charts.js:127-129 | The rounded mean `r` satisfies `r <= mean + 1/2 < r + 1`, which is `Math.round` (halves go up). |
| Rounding.RoundedMeanWithin | health-charts.js:123-129 | If every summand lies in `[lo, hi]`, the rounded mean does too. |
| Rounding.RoundingExamples | health-charts.js:127-129 | 63/3 gives 21, 5/2 gives 3 and -5/2 gives -2. |
| Observations.TotalBounds | health-charts.js:123-125 | A sum of `n` values in `[lo, hi]` lies in `[n*lo, n*hi]`. |
| Recovery.MonthlyView | health-charts.js:109-135 | One bucket per given month, labelled with its month. It is a gap in all three series exactly when the month has no records. |
| Recovery.MonthlyViewMean | health-charts.js:119-129 | A month with records holds, per metric, the rounded mean of exactly that month's records. |
| Recovery.YearView | health-charts.js:91-138 | 12 aligned buckets over the 12 months ending with today's month, gaps together. A bucket is a gap if and only if its month has no records. It is built on the corrected month walk `Recovery.YearWindow`; see Findings. |
| Recovery.YearWindowShape | health-charts.js:110-118 | The year window ends with today's month and its months are consecutive, so no month label repeats. This is the corrected loop. |
| Recovery.YearValueWithinBucket | health-charts.js:121-129 | A month with records shows the rounded mean of its records, which lies between their minimum and maximum. |
| Recovery.YearWindowAsWritten | health-charts.js:110-113 | The month walk as written: each visited month is the intended month or the one after it, and the last is today's own month. |
| Recovery.YearWindowAsWrittenRepeatsMonth | health-charts.js:110-113 | With today 2026-03-31, the loop as written visits March 2026 twice and never February 2026. |
| Recovery.YearViewAsWrittenRepeatsLabel | health-charts.js:110-118 | The as-written year view then shows the label "Mar" in its last two buckets. |
| Recovery.YearWindowAsWrittenEarlyInMonth | health-charts.js:110-113 | Up to the 28th of a month, the loop as written visits exactly the intended twelve months. |
| Recovery.SwitchTimeframe | health-charts.js:240-248 | `1W`, `1M` and `1Y` show the week, month and year views (lengths: record count, 30, 12). Any other timeframe leaves the chart unchanged. |
| ValueParsing.MatchIsLeftmostLongest | health-charts.js:282 | No match exactly when the text has no digit. The match is a `[0-9]+(\.[0-9]+)?` token, no token starts before it, and it cannot be extended. |
| ValueParsing.ParseValue | health-charts.js:280-284 | Empty or digit-free text gives no value. Otherwise the value is the leftmost-longest number token of the text. |
| ValueParsing.LeftmostLongestUnique | health-charts.js:282 | A text has at most one leftmost-longest number token. |
| ValueParsing.ParseValueIsLeftmostLongest | health-charts.js:280-284 | Wherever the text has a leftmost-longest token, `parseValue` returns exactly that token. |
| ValueParsing.ParseValueExamples | health-charts.js:280-284 | `"72 ms"` gives 72, `"N/A"` gives nothing, `"3."` gives 3, `"-5"` gives 5, `"5.25 mmol/L"` gives 5.25. |
| Histories.CellEntry | health-charts.js:294-307 | A cell contributes an entry exactly when it has a next cell whose text holds a number. The entry's value is `parseValue` of that text, and it carries the period's date. |
| Histories.Push | health-charts.js:300-306 | Pushing creates the key if needed, appends to that key's list only, and leaves every other list unchanged. |
| Histories.ScrapeMatches | health-charts.js:290-311 | The scraped map has a key exactly for markers with at least one parsed value. Its list holds all of them in document order. |
| Histories.EntriesAreParsed | health-charts.js:298-307 | Every scraped value is a number token and is dated by one of the periods. |
| Histories.SortByDateIsStableSort | health-charts.js:313-315 | The sorted list is ordered by date, is a permutation of the input, and keeps input order among entries with the same date. |
| Histories.StableSortIsUnique | health-charts.js:313-315 | Any date-ordered list with the same per-date order is exactly the sort's result. |
| Histories.ExtractHistoriesMatches | health-charts.js:290-315 | A marker has a history if and only if it has a parsed value. The history is all of its values, sorted stably by date. |
| Histories.TrendToShow | health-charts.js:378-382 | A trend is offered exactly when the marker has a history with more than one point, and it is that history. |
| Histories.TrendShownIff | health-charts.js:376-382 | A trend appears if and only if the marker has at least two parsed values in the tables. It shows all of them in date order. |

## Findings

| source | as written | input that shows it | evidently intended | confidence | as-written member | corrected member |
|---|---|---|---|---|---|---|
| health-charts.js:110-113 | `d.setMonth(d.getMonth() - i)` runs before `d.setDate(1)`, so today's day of month is kept while the month changes, and a day the target month lacks rolls over into the next month | today = 2026-03-31: at i = 1, "31 February" becomes 3 March, so March is bucketed twice and February never | twelve consecutive months (the comment "Generate last 12 months"), with the end month following the code, which is today's month; for example by setting the day to 1 before changing the month | not executed; the rollover is the documented `setMonth` behaviour, and with the demo's fixed today (the 3rd) it does not show. From the 31st the walk also repeats other months (December, October, July, May), and from the 29th or 30th it can skip February | Recovery.YearWindowAsWrittenRepeatsMonth | Recovery.YearWindowShape |

`Recovery.YearWindowAsWritten` models the loop as written.
`Recovery.YearWindow` is the corrected window, and `Recovery.YearView` is
built on it.

## Left out

- Chart.js: chart construction, colours, gradients, the legend, tooltips, tick limits (`maxTicksLimit` 6, 12 or 7) and `update()`. None of them affects the data.
- DOM access: `querySelectorAll`, `textContent.trim()`, `nextElementSibling`, event listeners, the button `active` class, tooltip position and opacity. Their results are the parameters above.
- Recovery.WeekView and Recovery.MonthView: labels are symbolic (`DayLabel(day, month)`, `MonthLabel(month)`). The locale-dependent month names of `toLocaleString` are not modelled.
- Time zones: the model works on calendar days in a single zone. The script mixes UTC (`toISOString`, and `new Date('YYYY-MM-DD')` is UTC midnight) with local time (`setDate`, `getMonth`, `getDate`). At any negative UTC offset, a record date read back with local `getDate` and `getMonth` is the previous day. The week labels then name the previous day. Records dated the 1st fall into the previous month's year bucket, and `Recovery.WeekBucketInMonthView`'s label equality no longer holds for the script. The month view's keys come from local noon through `toISOString`, so they shift only at offsets of 12 hours or more west of UTC or more than 12 hours east.
- DateKeys.ParseDateKey: stands in for `new Date(str)` on record dates. It accepts only strict `YYYY-MM-DD` with a real calendar day and treats every other string as an invalid date. The script also accepts the other ECMAScript date-string forms: `YYYY`, `YYYY-MM`, date-time strings, and the `+YYYYYY`/`-YYYYYY` expanded years. It also accepts whatever implementation-specific formats the browser parses. None of these is modelled. A `YYYY-MM-DD` string whose day (29 to 31) lies past the end of its month is an invalid date in the model. V8-based engines check only that the day is 01 to 31, then roll it over into the next month: `"2026-02-30"` is 2 March 2026. Other engines reject it. For such a record, the script's week label (e.g. "2 Mar") and year bucket (March) can therefore differ from the model's `InvalidDateLabel` and invalid-date bucket, depending on the engine.
- Recovery.MonthWindowKeys, Recovery.WeekBucketInMonthView and Recovery.GapBeforeWeekInMonthView require today's year in 1..9999. Outside it, `toISOString` produces six-digit expanded years, which the model formats but does not read back.
- Observations: the three metrics are integers present on every record. Missing fields (`undefined` and `NaN` sums) and floating-point division are not modelled. The year view divides each metric's sum by the bucket's full record count. Since every record carries all three metrics, no bucket holds a partial record. The year view's mean is exact integer `Math.round`, which is what floating point gives for the magnitudes involved.
- ValueParsing.ParseValue: returns the matched number text rather than `parseFloat` of it. The text determines the number but not the reverse: `"072"` and `"72"`, or `"1.50"` and `"1.5"`, are distinct entries in the model and equal values in the script. Floating-point values are not modelled.
- Histories: `rawDate` is an abstract integer instant. A heading that does not parse gives an invalid date, for which the comparator returns `NaN`, and the sort order is then implementation-defined. The model assumes every heading parses.
- `createChart` and `formatDate`: the trend chart's `M/YY` labels and its data mapping are rendering of the history, not modelled.
- Histories.Push, Histories.TrendToShow and Recovery.SwitchTimeframe: keys that name inherited `Object` properties (`"constructor"`, `"toString"`, `"__proto__"`, `"__defineGetter__"`) are not modelled. In the script such a marker key finds a non-array (a function, or `Object.prototype` for `"__proto__"`), and `push` throws and aborts the scrape. When such a marker is hovered, `biomarkerHistory[marker]` finds the inherited value. `__defineGetter__` is a function of length 2, so it passes `history.length > 1`, and `createChart` then throws on `dataPoints.map`. Such a timeframe finds a truthy non-view value, and the switch sets the labels to `undefined` and then throws. The model treats every key as absent until it is set.
- JavaScript object key order for integer-like marker keys. The model's histories are a map, so the order of keys is immaterial.
