# Weather dashboard computations, modelled in Dafny

The weather dashboard compares two locations, Oneonta (NY) and Greenville
(SC). It loads pre-generated Open-Meteo documents (forecast, historical and
yearly) and renders them as widgets and charts. There are two
`WeatherDashboard` classes, one in `public/js/app.js` and one in `app.js`.
Each mixes a few data transformations with DOM and Chart.js glue. This
project models those transformations and proves what they compute.

- `sequences.dfy` (module `Sequences`): the JavaScript array and object
  idioms the dashboards use.
  - `indexOf`;
  - the first-occurrence order of a `Set` and of an object's keys;
  - the `forEach`/`push` group-by loop;
  - `reduce` sums, `Math.max`/`Math.min` over a spread;
  - the clamping `slice`;
  - the run length of `for (i = 0; i < cap && start + i < len; i++)`.
- `forecast.dfy` (module `Forecast`): the `hourly` and `daily` blocks of a
  forecast document as index-aligned sequences, and the
  seconds-to-hours map.
- `public_dashboard.dfy` (module `PublicDashboard`): `public/js/app.js`.
  - the weather-code icon table with its default;
  - the hourly and seven-day strips;
  - the hourly precipitation comparison;
  - `aggregateDailyData`;
  - the shared 30-label axis of the historical charts;
  - the nearest-instant scan `findNearestHourIndex`;
  - the monthly average temperature chart;
  - the seven-day comparison table.
- `root_dashboard.dfy` (module `RootDashboard`): `app.js`.
  - the hour-prefix `findNearestHourIndex`;
  - the hourly strip;
  - the 168-hour comparison window;
  - `populateComparisonTable`;
  - the three-strip `displayPrecipitationComparison`.

Numbers are `real`s. Instants compared by the nearest-instant scan are
integers (milliseconds). Timestamps that are split or prefix-matched stay
strings. A JavaScript `undefined` result is `None`. The modelled routines
only read the loaded documents, so each operation takes the documents it
reads as parameters. What a routine hands to Chart.js or appends to the DOM is
modelled as the sequence it returns.

At the edges the code behaves as follows:

- `aggregateDailyData` with an unknown operation throws nothing. It yields
  `undefined` for every date (`Reduce` gives `None`).
- The public `findNearestHourIndex` on no timestamps returns 0. The loop
  never runs, and nothing is raised.
- The `app.js` `findNearestHourIndex` is not a nearest-instant search. It
  is the first timestamp starting with the current hour's 13-character
  `YYYY-MM-DDTHH` prefix, or 0 when there is none.

## Model

| member | source | states |
|---|---|---|
| Sequences.IndexOf | public/js/app.js:275 | `indexOf`: -1 exactly when the element is absent, otherwise an index holding it with no earlier occurrence |
| Sequences.Dedup | public/js/app.js:275 | `[...new Set(s)]`: no duplicates, only elements of `s`, never longer than `s` |
| Sequences.DedupMembers | public/js/app.js:275 | the `Set` keeps every element: `x` is in the deduplicated list iff it is in `s` |
| Sequences.DedupKeepsFirstOccurrenceOrder | public/js/app.js:275 | the deduplicated list orders elements by their first occurrence in `s` |
| Sequences.DedupLength | public/js/app.js:275 | the deduplicated list is exactly as long as `s` has distinct elements |
| Sequences.Bucket | public/js/app.js:902-908 | the values pushed under one key: non-empty iff the key occurs, never more values than keys |
| Sequences.BucketMembers | public/js/app.js:902-908 | a key's bucket holds exactly the values at the positions carrying that key |
| Sequences.BucketsPartition | public/js/app.js:902-908 | the buckets of the distinct keys together hold every value once: their sizes add up to the input length |
| Sequences.GroupBy | public/js/app.js:902-908 | the `forEach`/`push` loop: the object's key order is the keys' first-occurrence order, and each key maps to its bucket |
| Sequences.MaxOf | public/js/app.js:913 | `Math.max(...xs)` on a non-empty list is a member that bounds every member from above |
| Sequences.MinOf | public/js/app.js:914 | `Math.min(...xs)` on a non-empty list is a member that bounds every member from below |
| Sequences.CappedRun | public/js/app.js:171 | the capped loop runs at most `cap` times, never past the data, and stops only at the cap or at the end of the data |
| Sequences.Slice | app.js:381-389 | `slice(start, end)`: clamped to the length, empty when the end is at or before the start, element `k` is `xs[start + k]` |
| Forecast.SecondsToHours | app.js:388-389 | the sunshine series keeps its length, and each entry times 3600 is the source's seconds |
| PublicDashboard.WeatherIcon | public/js/app.js:10-15 | the lookup is total: a listed code gives its table entry, any other code gives the default `🌤️`, never an empty string |
| PublicDashboard.HourlyForecast | public/js/app.js:166-188 | at most 24 cells from the start hour, never past the data; cell `k` is hour `start + k` with its icon, temperature and precipitation |
| PublicDashboard.SevenDayForecast | public/js/app.js:190-219 | `min(7, days)` cards; card `k` is day `k` with its icon and values |
| PublicDashboard.PrecipitationComparison | public/js/app.js:221-255 | three strips of `CappedRun(24, start, len)` cells: Oneonta's amount, Greenville's amount, and the absolute difference at each hour |
| PublicDashboard.DateOf | public/js/app.js:903 | `split('T')[0]`: a prefix of the timestamp without a `T`, ending at the first `T` or at the end |
| PublicDashboard.GroupByDate | public/js/app.js:901-908 | the grouping loop: keys in first-occurrence order of the dates, each date mapped to its bucket of values |
| PublicDashboard.AggregateDailyData | public/js/app.js:900-916 | one entry per distinct date in first-occurrence order; entry `k` is the operation applied to that date's bucket |
| PublicDashboard.DailyDatesInFirstOccurrenceOrder | public/js/app.js:900-910 | the dates are distinct, as many as there are distinct dates, include every input date and nothing else, and are ordered by first occurrence |
| PublicDashboard.DailyEntry | public/js/app.js:902-915 | each bucket is non-empty and holds exactly that date's values; `sum` gives their sum, `avg` the sum over the count, `max`/`min` a member bounding all others, and any other name gives `undefined` |
| PublicDashboard.SumBounded | public/js/app.js:911-912 | the `reduce` sum of values within `[lo, hi]` lies within `[n·lo, n·hi]` |
| PublicDashboard.MeanWithinRange | public/js/app.js:911 | an `avg` entry lies between the bucket's minimum and maximum |
| PublicDashboard.MeanBounded | public/js/app.js:911 | a mean of values within bounds stays within them |
| PublicDashboard.KeepFirstOccurrencesOfDistinct | public/js/app.js:275 | the `indexOf` filter keeps every element of a list without duplicates |
| PublicDashboard.ChartAxisIsPrefix | public/js/app.js:275 | the filter after `Set` changes nothing: the axis is the first `min(30, #distinct)` distinct timestamps |
| PublicDashboard.ChartAxisContents | public/js/app.js:275 | the axis has no duplicates, takes labels only from the two series, has `min(30, #distinct)` labels, and holds every timestamp when it is below the cap |
| PublicDashboard.ChartAxisOrder | public/js/app.js:275 | the axis keeps first-occurrence order over Oneonta's timestamps followed by Greenville's |
| PublicDashboard.FindNearestHourIndex | public/js/app.js:918-930 | 0 on no instants; otherwise an index whose distance to the target is at most every other, and strictly below every earlier index (first of ties) |
| PublicDashboard.Insert | public/js/app.js:990 | inserting a new key into an ascending key list keeps it ascending and adds exactly that key |
| PublicDashboard.SortKeys | public/js/app.js:990 | `sort()` of distinct keys: ascending, and a permutation of its input |
| PublicDashboard.GroupByMonth | public/js/app.js:962-983 | both `forEach` loops: keys in first-occurrence order over Oneonta's months then Greenville's, each mapped to both locations' buckets for that month |
| PublicDashboard.AverageByMonth | public/js/app.js:985-1004 | one label and one average per location for each sorted key, 0 for a location with no samples |
| PublicDashboard.MonthlyAverageTemperatures | public/js/app.js:961-1004 | label `k` names the `k`-th ascending month; each average is the mean of that month's samples for the location, or 0 |
| PublicDashboard.ChartMonthsSorted | public/js/app.js:990 | the chart's months are strictly ascending, so distinct, and there are as many as distinct months in the two series |
| PublicDashboard.ChartMonthsMembers | public/js/app.js:966-1004 | a month is on the chart iff either location has a sample in it, and a location without samples there gets 0 |
| PublicDashboard.ComparisonTable | public/js/app.js:852-897 | `4·min(7, days)` rows; row `k` is metric `k % 4` of day `k / 4`, only a day's first row has the date, and the difference is Oneonta minus Greenville |
| RootDashboard.HourKey | app.js:557-558 | at most 13 characters, and exactly the `YYYY-MM-DDTHH` head of an ISO timestamp |
| RootDashboard.FindIndexStartingWith | app.js:558 | `findIndex` with `startsWith`: -1 iff no timestamp has the prefix, otherwise the first that has it |
| RootDashboard.FindNearestHourIndex | app.js:556-560 | the first timestamp in the current hour when there is one; 0 when none matches or there are none; within range for a non-empty list |
| RootDashboard.HourlyForecast | app.js:124-144 | at most 24 cells from the start hour, never past the data; cell `k` is hour `start + k` |
| RootDashboard.Window | app.js:375-389 | the end is `min(start + 168, length)`; every series is cut from the same hours; equal-length aligned inputs give equal-length series; sunshine entries times 3600 are the source's seconds |
| RootDashboard.Visits | app.js:522 | the pass count of the stride-24 loop is the least `n` with `start + 24n >= end` |
| RootDashboard.PopulateComparisonTable | app.js:516-554 | accepts any arrays that cover the sampled hours; `3·Visits(start, end)` rows; row `k` samples hour `start + 24(k / 3)` inside the window, shows metric `k % 3`, difference Oneonta minus Greenville, with `+` iff the difference is positive |
| RootDashboard.FullWeekWindow | app.js:376-389 | with a full week of data every series holds 168 hours and the table has 21 rows |
| RootDashboard.WindowFromCurrentHour | app.js:376-389 | starting at the current hour of a non-empty forecast, the window holds 1 to 168 hours and the table samples 1 to 7 of them |
| RootDashboard.PrecipStrip | app.js:584-619 | at most 24 cells bounded by the location's own array; cell `k` is hour `start + k` with its amount and whether it is wet |
| RootDashboard.DifferenceStrip | app.js:621-642 | bounded by Oneonta's array; each cell is Oneonta minus Greenville (absent when Greenville has no value) and is coloured Oneonta's when positive, Greenville's when negative, neutral otherwise |
| RootDashboard.PrecipitationComparison | app.js:579-642 | the two location strips and the difference strip from one start hour; each difference cell is at Oneonta's hour `start + k`, holds Oneonta minus Greenville (absent where Greenville has no value, and equal to the two strips' amounts where both exist), and is coloured by its sign |

## Left out

- Data loading (`fetch`, `Promise.all`, the per-resource `.catch` to `null`) is asynchronous I/O. Every operation takes the documents as already loaded.
- DOM manipulation, tab switching, event wiring, and Chart.js configuration, `resize` and `destroy` are left out. Outputs are the sequences a routine would hand to them.
- Date parsing, timezones and locale formatting are left out. This covers `new Date(...)`, `getHours`/`getMonth`/`getFullYear` in local time, `toISOString` in UTC, `toLocale*String` and `getDateLabels`.
  - Timestamps are kept as given.
  - The current time is the `iso` parameter of `RootDashboard.FindNearestHourIndex` and the `target` instant of `PublicDashboard.FindNearestHourIndex`.
  - A month key is an abstract (year, month 0-11) pair.
- Floating-point formatting is left out: `Math.round(x * 10) / 10`, `toFixed`, `parseFloat` of a formatted value, the UV percentage and NaN from unparsable dates. Values are exact reals.
- PublicDashboard.PrecipitationComparison: requires Greenville's precipitation to cover the hours shown. On a shorter array the source throws a TypeError (`toFixed` on `undefined`) after appending that hour's Oneonta item; the model does not capture that partial output.
- PublicDashboard.ComparisonTable: requires Greenville's daily arrays to cover the days shown. On a shorter array the source throws at Greenville's `precipitation_sum[i].toFixed(2)`; the model does not capture the rows appended before that.
- RootDashboard.PopulateComparisonTable: values and differences are not rounded. The `+` sign follows the exact difference rather than the rounded string, so a difference below the display precision can differ in sign from the source's. The model also requires both locations' arrays to cover the sampled hours; the caller bounds the window by Oneonta's length only, and on a shorter Greenville forecast the source appends that hour's Temperature row (with `NaN` values) and then throws a TypeError at Greenville's `precipitation[i].toFixed(2)`, which the model does not capture.
- RootDashboard.PrecipStrip: `wet` is `amount > 0` on the exact amount. The source compares the two-decimal string with 0, so an amount below 0.005 is wet here but not there.
- RootDashboard.PrecipitationComparison: inherits both gaps above: `wet` is tested on the exact amount, and the difference colour follows the exact difference rather than the two-decimal one.
- RootDashboard.DifferenceStrip: the colour follows the exact difference, not the difference rounded to two decimals. A missing Greenville value (`NaN` in the source) is `None`, coloured neutral as in the source.
- PublicDashboard.MonthlyAverageTemperatures: years are restricted to 1000-9999. For those years the `YYYY-MM` strings sort like (year, month) pairs. The averages are not rounded to one decimal.
- PublicDashboard.AggregateDailyData: the model does not capture date keys that are all-digit strings, which objects enumerate first in numeric order, or keys that are inherited property names such as `constructor`. ISO timestamps are neither.
- The sunrise/sunset and current-conditions panels drawn by `displayLocationCurrent` (public/js/app.js:107-164, app.js:97-122) only read single entries into the DOM and are not modelled, except the icon lookup (`WeatherIcon`). The wiring in public/js/app.js's `displayCurrentWeather` is not well-formed: a stray `}` at line 102 leaves the following call outside the method; its other callees (the strips, the precipitation comparison and `findNearestHourIndex`) are modelled.
- scripts/data_fetcher.py (HTTP requests and JSON file writes) is not part of this model.
