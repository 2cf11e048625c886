/** The computations of the `WeatherDashboard` class in public/js/app.js:
    the weather-code icon table, the hourly and seven-day strips, the
    hourly precipitation comparison, the historical charts' daily
    aggregation and shared timestamp axis, the nearest-hour search, the
    monthly average temperature chart and the seven-day comparison table.

    The modelled routines only read the loaded documents, so each
    operation takes the documents it reads as parameters. Chart and DOM
    output is modelled as the sequences handed to them. */
module PublicDashboard {
  import opened Sequences
  import opened Forecast

  // ---------------------------------------------------------------------
  // Weather icons

  /** The icon shown for a code the table does not list. */
  const DefaultIcon: string := "🌤️"

  /** `this.weatherIcons`: WMO weather code to icon. */
  const WeatherIcons: map<int, string> := map[
    0 := "☀️", 1 := "🌤️", 2 := "⛅", 3 := "☁️", 45 := "🌫️", 48 := "🌫️",
    51 := "🌧️", 53 := "🌧️", 55 := "🌧️", 61 := "🌧️", 63 := "⛈️", 65 := "⛈️",
    71 := "❄️", 73 := "❄️", 75 := "❄️", 77 := "❄️", 80 := "🌧️", 81 := "⛈️",
    82 := "⛈️", 85 := "❄️", 86 := "❄️", 95 := "⛈️", 96 := "⛈️", 99 := "⛈️"
  ]

  /** `this.weatherIcons[code] || '🌤️'`: total over all codes. No entry of
      the table is an empty string, so `||` only replaces a missing entry. */
  function WeatherIcon(code: int): (icon: string)
    ensures code in WeatherIcons ==> icon == WeatherIcons[code]
    ensures code !in WeatherIcons ==> icon == DefaultIcon
    ensures icon in WeatherIcons.Values
    ensures icon != ""
  {
    if code in WeatherIcons && WeatherIcons[code] != "" then WeatherIcons[code]
    else
      assert WeatherIcons[1] == DefaultIcon;
      DefaultIcon
  }

  // ---------------------------------------------------------------------
  // Hourly and seven-day strips

  const HourlyCap := 24
  const DaysShown := 7

  /** One cell of the hourly strip (the hour label is the timestamp it is formatted from). */
  datatype HourlyItem = HourlyItem(time: string, icon: string, temperature: real, precipitation: real)

  /** `displayHourlyForecast`: the cells from `start`, at most 24 and never past the data. */
  method HourlyForecast(hourly: Hourly, start: nat) returns (items: seq<HourlyItem>)
    requires hourly.Aligned()
    ensures |items| == CappedRun(HourlyCap, start, |hourly.time|)
    ensures forall k :: 0 <= k < |items| ==>
      && start + k < |hourly.time|
      && items[k] == HourlyItem(hourly.time[start + k], WeatherIcon(hourly.weatherCode[start + k]),
                                hourly.temperature[start + k], hourly.precipitation[start + k])
  {
    items := [];
    var i := 0;
    while i < HourlyCap && start + i < |hourly.time|
      invariant i <= HourlyCap
      invariant i > 0 ==> start + i <= |hourly.time|
      invariant |items| == i
      invariant forall k :: 0 <= k < i ==>
        && start + k < |hourly.time|
        && items[k] == HourlyItem(hourly.time[start + k], WeatherIcon(hourly.weatherCode[start + k]),
                                  hourly.temperature[start + k], hourly.precipitation[start + k])
    {
      var index := start + i;
      var icon := WeatherIcon(hourly.weatherCode[index]);
      items := items + [HourlyItem(hourly.time[index], icon, hourly.temperature[index], hourly.precipitation[index])];
      i := i + 1;
    }
  }

  /** One card of the seven-day forecast. */
  datatype ForecastDay = ForecastDay(
    date: string, icon: string, maxTemperature: real, minTemperature: real,
    precipitation: real, precipitationProbability: real, uvIndexMax: real)

  function ForecastDayAt(daily: Daily, i: nat): ForecastDay
    requires daily.Aligned() && i < |daily.time|
  {
    ForecastDay(daily.time[i], WeatherIcon(daily.weatherCode[i]), daily.temperatureMax[i],
                daily.temperatureMin[i], daily.precipitationSum[i],
                daily.precipitationProbabilityMax[i], daily.uvIndexMax[i])
  }

  /** `displaySevenDayForecast`: the first seven days, or all of them when there are fewer. */
  method SevenDayForecast(daily: Daily) returns (days: seq<ForecastDay>)
    requires daily.Aligned()
    ensures |days| == Min(DaysShown, |daily.time|)
    ensures forall k :: 0 <= k < |days| ==> days[k] == ForecastDayAt(daily, k)
  {
    days := [];
    var i := 0;
    while i < DaysShown && i < |daily.time|
      invariant i <= DaysShown && i <= |daily.time|
      invariant |days| == i
      invariant forall k :: 0 <= k < i ==> days[k] == ForecastDayAt(daily, k)
    {
      days := days + [ForecastDayAt(daily, i)];
      i := i + 1;
    }
  }

  /** One cell of a precipitation strip. */
  datatype PrecipItem = PrecipItem(time: string, amount: real)

  function Abs(x: real): real { if x < 0.0 then -x else x }

  /** `displayPrecipitationComparison`: three strips of at most 24 hours from
      `start`, bounded by Oneonta's data: Oneonta's amount, Greenville's amount
      and the size of their difference. Greenville's amounts must cover the
      hours shown, since each is formatted with `toFixed`. */
  method PrecipitationComparison(oneonta: Hourly, greenville: Hourly, start: nat)
    returns (oneontaStrip: seq<PrecipItem>, greenvilleStrip: seq<PrecipItem>, differenceStrip: seq<PrecipItem>)
    requires oneonta.Aligned()
    requires start + CappedRun(HourlyCap, start, |oneonta.time|) <= |greenville.precipitation|
    ensures |oneontaStrip| == |greenvilleStrip| == |differenceStrip| == CappedRun(HourlyCap, start, |oneonta.time|)
    ensures forall k :: 0 <= k < |oneontaStrip| ==>
      && start + k < |oneonta.time|
      && oneontaStrip[k] == PrecipItem(oneonta.time[start + k], oneonta.precipitation[start + k])
      && greenvilleStrip[k] == PrecipItem(oneonta.time[start + k], greenville.precipitation[start + k])
      && differenceStrip[k] == PrecipItem(oneonta.time[start + k],
                                          Abs(oneonta.precipitation[start + k] - greenville.precipitation[start + k]))
  {
    oneontaStrip, greenvilleStrip, differenceStrip := [], [], [];
    var i := 0;
    while i < HourlyCap && start + i < |oneonta.time|
      invariant i <= HourlyCap
      invariant i > 0 ==> start + i <= |oneonta.time|
      invariant i <= CappedRun(HourlyCap, start, |oneonta.time|)
      invariant |oneontaStrip| == |greenvilleStrip| == |differenceStrip| == i
      invariant forall k :: 0 <= k < i ==>
        && start + k < |oneonta.time|
        && oneontaStrip[k] == PrecipItem(oneonta.time[start + k], oneonta.precipitation[start + k])
        && greenvilleStrip[k] == PrecipItem(oneonta.time[start + k], greenville.precipitation[start + k])
        && differenceStrip[k] == PrecipItem(oneonta.time[start + k],
                                            Abs(oneonta.precipitation[start + k] - greenville.precipitation[start + k]))
    {
      var index := start + i;
      var oneontaPrecip := oneonta.precipitation[index];
      var greenvillePrecip := greenville.precipitation[index];
      var diff := oneontaPrecip - greenvillePrecip;
      oneontaStrip := oneontaStrip + [PrecipItem(oneonta.time[index], oneontaPrecip)];
      greenvilleStrip := greenvilleStrip + [PrecipItem(oneonta.time[index], greenvillePrecip)];
      differenceStrip := differenceStrip + [PrecipItem(oneonta.time[index], Abs(diff))];
      i := i + 1;
    }
  }

  // ---------------------------------------------------------------------
  // Daily aggregation of the historical hourly series

  /** `time.split('T')[0]`: the text before the first 'T', or all of it. */
  function DateOf(time: string): (date: string)
    ensures date <= time
    ensures 'T' !in date
    ensures date == time || time[|date|] == 'T'
  {
    if time == [] || time[0] == 'T' then [] else [time[0]] + DateOf(time[1..])
  }

  /** The date key of each timestamp. */
  function DatesOf(times: seq<string>): (dates: seq<string>)
    ensures |dates| == |times|
    ensures forall i :: 0 <= i < |times| ==> dates[i] == DateOf(times[i])
  {
    seq(|times|, i requires 0 <= i < |times| => DateOf(times[i]))
  }

  /** The keys of the `dailyData` object once every timestamp is grouped. */
  function DailyDates(times: seq<string>): seq<string>
  {
    Dedup(DatesOf(times))
  }

  /** The reduction applied to one day's values. An operation other than the
      four names falls through every test and yields `undefined`. */
  function Reduce(op: string, xs: seq<real>): Option<real>
    requires xs != []
  {
    if op == "avg" then Some(Sum(xs) / |xs| as real)
    else if op == "sum" then Some(Sum(xs))
    else if op == "max" then Some(MaxOf(xs))
    else if op == "min" then Some(MinOf(xs))
    else None
  }

  /** The first half of `aggregateDailyData`: the `forEach` that pushes each
      value onto the `dailyData` group of its timestamp's date, creating the
      group on the date's first occurrence. `order` is the object's key order. */
  method GroupByDate(times: seq<string>, values: seq<real>)
    returns (order: seq<string>, dailyData: map<string, seq<real>>)
    requires |times| == |values|
    ensures Grouped(DatesOf(times), values, order, dailyData)
  {
    var dates := DatesOf(times);
    order, dailyData := GroupBy(dates, values);
  }

  /** `aggregateDailyData`: group the values by date, then reduce every
      group, in the order the dates first appear. */
  method AggregateDailyData(times: seq<string>, values: seq<real>, op: string) returns (daily: seq<Option<real>>)
    requires |times| == |values|
    ensures |daily| == |DailyDates(times)|
    ensures forall k :: 0 <= k < |daily| ==>
      daily[k] == Reduce(op, Bucket(DatesOf(times), values, DailyDates(times)[k]))
  {
    var order, dailyData := GroupByDate(times, values);
    forall k | 0 <= k < |order|
      ensures order[k] in dailyData && dailyData[order[k]] != []
    {
      assert order[k] in DatesOf(times);
    }
    daily := seq(|order|, k requires 0 <= k < |order| => Reduce(op, dailyData[order[k]]));
  }

  /** The daily series has one entry per distinct date, in the order in
      which the dates first appear, and every date of the input is there. */
  lemma DailyDatesInFirstOccurrenceOrder(times: seq<string>)
    ensures NoDups(DailyDates(times))
    ensures |DailyDates(times)| == |Elements(DatesOf(times))|
    ensures forall i :: 0 <= i < |times| ==> DateOf(times[i]) in DailyDates(times)
    ensures forall d :: d in DailyDates(times) ==> exists i :: 0 <= i < |times| && DateOf(times[i]) == d
    ensures forall i, j :: 0 <= i < j < |DailyDates(times)| ==>
      IndexOf(DatesOf(times), DailyDates(times)[i]) < IndexOf(DatesOf(times), DailyDates(times)[j])
  {
    var dates := DatesOf(times);
    DedupMembers(dates);
    DedupLength(dates);
    DedupKeepsFirstOccurrenceOrder(dates);
    forall d | d in DailyDates(times)
      ensures exists i :: 0 <= i < |times| && DateOf(times[i]) == d
    {
      var i := IndexOf(dates, d);
      assert DateOf(times[i]) == d;
    }
  }

  /** Every day's group is non-empty and holds exactly that day's values; the
      entry is their sum, their mean, their maximum or minimum (a member of
      the group bounding all others), or `undefined` for any other operation. */
  lemma DailyEntry(times: seq<string>, values: seq<real>, op: string, d: string)
    requires |times| == |values|
    requires d in DailyDates(times)
    ensures var day := Bucket(DatesOf(times), values, d);
      && day != []
      && (forall v :: v in day ==> exists i :: 0 <= i < |times| && DateOf(times[i]) == d && values[i] == v)
      && (forall i :: 0 <= i < |times| && DateOf(times[i]) == d ==> values[i] in day)
      && (op == "sum" ==> Reduce(op, day) == Some(Sum(day)))
      && (op == "avg" ==> Reduce(op, day) == Some(Sum(day) / |day| as real))
      && (op == "max" ==> Reduce(op, day).Some? && Reduce(op, day).value in day
                          && forall v :: v in day ==> v <= Reduce(op, day).value)
      && (op == "min" ==> Reduce(op, day).Some? && Reduce(op, day).value in day
                          && forall v :: v in day ==> Reduce(op, day).value <= v)
      && (op != "avg" && op != "sum" && op != "max" && op != "min" ==> Reduce(op, day) == None)
  {
    var dates := DatesOf(times);
    BucketMembers(dates, values, d);
  }

  /** Each value is bounded by a constant when all are. */
  lemma {:induction false} SumBounded(xs: seq<real>, lo: real, hi: real)
    requires forall x :: x in xs ==> lo <= x <= hi
    ensures |xs| as real * lo <= Sum(xs) <= |xs| as real * hi
  {
    if xs != [] {
      var n := |xs| - 1;
      assert xs[n] in xs;
      assert forall x :: x in xs[..n] ==> x in xs;
      SumBounded(xs[..n], lo, hi);
      assert |xs| as real * lo == n as real * lo + lo;
      assert |xs| as real * hi == n as real * hi + hi;
    }
  }

  /** A mean lies between the smallest and the largest value averaged: a
      daily or monthly average never leaves the range of its samples. */
  lemma MeanWithinRange(xs: seq<real>)
    requires xs != []
    ensures MinOf(xs) <= Sum(xs) / |xs| as real <= MaxOf(xs)
  {
    MeanBounded(xs, MinOf(xs), MaxOf(xs));
  }

  /** A mean of values within bounds is within the bounds. */
  lemma MeanBounded(xs: seq<real>, lo: real, hi: real)
    requires xs != []
    requires forall x :: x in xs ==> lo <= x <= hi
    ensures lo <= Sum(xs) / |xs| as real <= hi
  {
    SumBounded(xs, lo, hi);
    QuotientBetween(Sum(xs), |xs| as real, lo, hi);
  }

  lemma QuotientBetween(total: real, n: real, lo: real, hi: real)
    requires n > 0.0 && n * lo <= total <= n * hi
    ensures lo <= total / n <= hi
  {
    assert total / n - lo == (total - n * lo) / n;
    assert hi - total / n == (n * hi - total) / n;
  }

  // ---------------------------------------------------------------------
  // The shared timestamp axis of the historical charts

  const AxisCap := 30

  /** `a.filter((d, i, a) => a.indexOf(d) === i)`, from position `i` on:
      keeps the elements standing at their first occurrence. */
  function KeepFirstOccurrences<T(==)>(a: seq<T>, i: nat): seq<T>
    requires i <= |a|
    decreases |a| - i
  {
    if i == |a| then []
    else (if IndexOf(a, a[i]) == i then [a[i]] else []) + KeepFirstOccurrences(a, i + 1)
  }

  /** On a list without duplicates the first-occurrence filter keeps everything. */
  lemma {:induction false} KeepFirstOccurrencesOfDistinct<T>(a: seq<T>, i: nat)
    requires NoDups(a) && i <= |a|
    ensures KeepFirstOccurrences(a, i) == a[i..]
    decreases |a| - i
  {
    if i < |a| {
      KeepFirstOccurrencesOfDistinct(a, i + 1);
      assert IndexOf(a, a[i]) == i;
      assert a[i..] == [a[i]] + a[i + 1..];
    }
  }

  /** `[...new Set([...a, ...b])].filter((d, i, a) => a.indexOf(d) === i).slice(0, 30)`. */
  function ChartAxis(a: seq<string>, b: seq<string>): seq<string>
  {
    var distinct := Dedup(a + b);
    Slice(KeepFirstOccurrences(distinct, 0), 0, AxisCap)
  }

  /** The first-occurrence filter changes nothing after `Set`, so the axis
      is the first min(30, #distinct) distinct timestamps. */
  lemma ChartAxisIsPrefix(a: seq<string>, b: seq<string>)
    ensures var distinct := Dedup(a + b);
      ChartAxis(a, b) == distinct[..Min(AxisCap, |distinct|)]
  {
    var distinct := Dedup(a + b);
    KeepFirstOccurrencesOfDistinct(distinct, 0);
    assert distinct[0..] == distinct;
  }

  /** The axis has no repeated timestamp, takes its labels from the two series,
      holds the first min(30, #distinct) of them, and when it is shorter than
      the cap holds them all. */
  lemma ChartAxisContents(a: seq<string>, b: seq<string>)
    ensures var axis := ChartAxis(a, b);
      && NoDups(axis)
      && (forall x :: x in axis ==> x in a + b)
      && |axis| == Min(AxisCap, |Elements(a + b)|)
      && (|axis| < AxisCap ==> forall i :: 0 <= i < |a + b| ==> (a + b)[i] in axis)
  {
    var distinct := Dedup(a + b);
    var axis := ChartAxis(a, b);
    ChartAxisIsPrefix(a, b);
    DedupMembers(a + b);
    DedupLength(a + b);
    forall x | x in axis
      ensures x in a + b
    {
      var k :| 0 <= k < |axis| && axis[k] == x;
      assert distinct[k] == x;
    }
    assert |axis| < AxisCap ==> axis == distinct;
  }

  /** The axis keeps the order in which the timestamps first appear in the
      Oneonta series followed by the Greenville series. */
  lemma ChartAxisOrder(a: seq<string>, b: seq<string>)
    ensures var axis := ChartAxis(a, b);
      forall i, j :: 0 <= i < j < |axis| ==> IndexOf(a + b, axis[i]) < IndexOf(a + b, axis[j])
  {
    var distinct := Dedup(a + b);
    var axis := ChartAxis(a, b);
    ChartAxisIsPrefix(a, b);
    DedupKeepsFirstOccurrenceOrder(a + b);
    forall i, j | 0 <= i < j < |axis|
      ensures IndexOf(a + b, axis[i]) < IndexOf(a + b, axis[j])
    {
      assert axis[i] == distinct[i] && axis[j] == distinct[j];
    }
  }

  // ---------------------------------------------------------------------
  // Nearest hour

  /** `Math.abs(t - target)` on instants in milliseconds. */
  function Distance(t: int, target: int): nat
  {
    if t >= target then t - target else target - t
  }

  /** `findNearestHourIndex`: a scan that replaces the best index only on a
      strictly smaller distance, so the first of equally near instants wins.
      With no instants the loop never runs and 0 comes back. */
  method FindNearestHourIndex(times: seq<int>, target: int) returns (nearest: nat)
    ensures |times| == 0 ==> nearest == 0
    ensures |times| > 0 ==> nearest < |times|
    ensures |times| > 0 ==> forall j :: 0 <= j < |times| ==>
      Distance(times[nearest], target) <= Distance(times[j], target)
    ensures |times| > 0 ==> forall j :: 0 <= j < nearest ==>
      Distance(times[nearest], target) < Distance(times[j], target)
  {
    nearest := 0;
    if |times| == 0 {
      return;
    }
    var minDiff := Distance(times[0], target);
    var i := 1;
    while i < |times|
      invariant 1 <= i <= |times|
      invariant nearest < i
      invariant minDiff == Distance(times[nearest], target)
      invariant forall j :: 0 <= j < i ==> minDiff <= Distance(times[j], target)
      invariant forall j :: 0 <= j < nearest ==> minDiff < Distance(times[j], target)
    {
      var diff := Distance(times[i], target);
      if diff < minDiff {
        minDiff := diff;
        nearest := i;
      }
      i := i + 1;
    }
  }

  // ---------------------------------------------------------------------
  // Monthly average temperature chart

  type MonthIndex = m: int | 0 <= m < 12
  /** Four-digit years, for which the `YYYY-MM` key strings sort as (year, month) pairs. */
  type Year = y: int | 1000 <= y <= 9999 witness 1000

  /** `getFullYear() + '-' + String(getMonth()).padStart(2, '0')`. */
  datatype MonthKey = MonthKey(year: Year, month: MonthIndex)

  const MonthNames: seq<string> := ["Jan", "Feb", "Mar", "Apr", "May", "Jun", "Jul", "Aug", "Sep", "Oct", "Nov", "Dec"]

  /** `months[monthIndex] + ' ' + year`. */
  datatype MonthLabel = MonthLabel(name: string, year: Year)

  function Label(key: MonthKey): MonthLabel
  {
    MonthLabel(MonthNames[key.month], key.year)
  }

  /** The order `sort()` gives the key strings. */
  predicate Before(a: MonthKey, b: MonthKey)
  {
    a.year < b.year || (a.year == b.year && a.month < b.month)
  }

  predicate Ascending(s: seq<MonthKey>)
  {
    forall i, j :: 0 <= i < j < |s| ==> Before(s[i], s[j])
  }

  /** One step of the insertion sort standing for `sort()`. */
  function Insert(x: MonthKey, s: seq<MonthKey>): (r: seq<MonthKey>)
    requires Ascending(s) && x !in s
    ensures Ascending(r)
    ensures multiset(r) == multiset(s) + multiset{x}
  {
    if s == [] then [x]
    else if Before(x, s[0]) then [x] + s
    else
      var rest := Insert(x, s[1..]);
      assert s == [s[0]] + s[1..];
      HeadBeforeRest(s[0], s[1..], x, rest);
      [s[0]] + rest
  }

  /** A key before every key of a list, and before `x`, is before every key
      of a list built from both. */
  lemma HeadBeforeRest(h: MonthKey, tail: seq<MonthKey>, x: MonthKey, rest: seq<MonthKey>)
    requires forall j :: 0 <= j < |tail| ==> Before(h, tail[j])
    requires !Before(x, h) && x != h
    requires multiset(rest) == multiset(tail) + multiset{x}
    ensures forall j :: 0 <= j < |rest| ==> Before(h, rest[j])
  {
    forall j | 0 <= j < |rest|
      ensures Before(h, rest[j])
    {
      var y := rest[j];
      assert y in multiset(rest);
      if y != x {
        assert y in multiset(tail);
        var k :| 0 <= k < |tail| && tail[k] == y;
      }
    }
  }

  /** `Object.keys(monthlyData).sort()` on keys without repetition. */
  function SortKeys(s: seq<MonthKey>): (r: seq<MonthKey>)
    requires NoDups(s)
    ensures Ascending(r)
    ensures multiset(r) == multiset(s)
  {
    if s == [] then []
    else
      assert s == [s[0]] + s[1..];
      var rest := SortKeys(s[1..]);
      assert s[0] !in multiset(rest);
      Insert(s[0], rest)
  }

  /** The months on the chart: every month either series has a sample in, ascending. */
  function ChartMonths(oneontaMonths: seq<MonthKey>, greenvilleMonths: seq<MonthKey>): seq<MonthKey>
  {
    SortKeys(Dedup(oneontaMonths + greenvilleMonths))
  }

  /** The mean of a month's samples, 0 for a month without any. */
  function MeanOrZero(xs: seq<real>): real
  {
    if |xs| > 0 then Sum(xs) / |xs| as real else 0.0
  }

  /** The per-month samples of both locations. */
  datatype MonthGroups = MonthGroups(oneonta: seq<real>, greenville: seq<real>)

  /** `monthlyData` with key order `keys` holds, for every month either
      series has a sample in, the samples of each location in that month. */
  ghost predicate MonthsGrouped<K(!new)>(
    oneontaMonths: seq<K>, oneontaTemps: seq<real>,
    greenvilleMonths: seq<K>, greenvilleTemps: seq<real>,
    keys: seq<K>, monthlyData: map<K, MonthGroups>)
    requires |oneontaMonths| == |oneontaTemps| && |greenvilleMonths| == |greenvilleTemps|
  {
    && keys == Dedup(oneontaMonths + greenvilleMonths)
    && (forall m :: m in monthlyData <==> m in keys)
    && (forall m :: m in monthlyData ==>
          monthlyData[m] == MonthGroups(Bucket(oneontaMonths, oneontaTemps, m),
                                        Bucket(greenvilleMonths, greenvilleTemps, m)))
  }

  /** `monthlyData` after the Oneonta walk alone. */
  ghost predicate OneontaGrouped<K(!new)>(months: seq<K>, temps: seq<real>,
                                         keys: seq<K>, monthlyData: map<K, MonthGroups>)
    requires |months| == |temps|
  {
    && keys == Dedup(months)
    && (forall m :: m in monthlyData <==> m in keys)
    && (forall m :: m in monthlyData ==> monthlyData[m] == MonthGroups(Bucket(months, temps, m), []))
  }

  /** The entry of a month, `{ oneonta: [], greenville: [] }` when it is
      created on the spot. */
  function EntryOf<K(==)>(monthlyData: map<K, MonthGroups>, key: K): MonthGroups
  {
    if key in monthlyData then monthlyData[key] else MonthGroups([], [])
  }

  /** One step of the Oneonta `forEach`: the sample is pushed onto the
      `oneonta` list of its month. */
  lemma OneontaStep<K(!new)>(months: seq<K>, temps: seq<real>, key: K, temp: real,
                    keys: seq<K>, monthlyData: map<K, MonthGroups>)
    requires |months| == |temps|
    requires OneontaGrouped(months, temps, keys, monthlyData)
    ensures var entry := EntryOf(monthlyData, key);
      OneontaGrouped(months + [key], temps + [temp],
                     if key in monthlyData then keys else keys + [key],
                     monthlyData[key := entry.(oneonta := entry.oneonta + [temp])])
  {
    var entry := EntryOf(monthlyData, key);
    var keys' := if key in monthlyData then keys else keys + [key];
    var data := monthlyData[key := entry.(oneonta := entry.oneonta + [temp])];
    KeyOrderStep(months, key, keys, monthlyData, entry.(oneonta := entry.oneonta + [temp]));
    forall m | m in data
      ensures data[m] == MonthGroups(Bucket(months + [key], temps + [temp], m), [])
    {
      BucketSnoc(months, temps, key, temp, m);
      if m == key {
        if key !in monthlyData {
          AbsentFromDedup(months, key);
          assert Bucket(months, temps, key) == [];
        }
      } else {
        assert data[m] == monthlyData[m];
      }
    }
    assert OneontaGrouped(months + [key], temps + [temp], keys', data);
  }

  /** One step of the Greenville `forEach`, after the whole Oneonta series. */
  lemma GreenvilleStep<K(!new)>(oneontaMonths: seq<K>, oneontaTemps: seq<real>,
                       months: seq<K>, temps: seq<real>, key: K, temp: real,
                       keys: seq<K>, monthlyData: map<K, MonthGroups>)
    requires |oneontaMonths| == |oneontaTemps| && |months| == |temps|
    requires MonthsGrouped(oneontaMonths, oneontaTemps, months, temps, keys, monthlyData)
    ensures var entry := EntryOf(monthlyData, key);
      MonthsGrouped(oneontaMonths, oneontaTemps, months + [key], temps + [temp],
                    if key in monthlyData then keys else keys + [key],
                    monthlyData[key := entry.(greenville := entry.greenville + [temp])])
  {
    var entry := EntryOf(monthlyData, key);
    var keys' := if key in monthlyData then keys else keys + [key];
    var data := monthlyData[key := entry.(greenville := entry.greenville + [temp])];
    KeyOrderStepAfter(oneontaMonths, months, key, keys, monthlyData, entry.(greenville := entry.greenville + [temp]));
    GreenvilleValuesStep(oneontaMonths, oneontaTemps, months, temps, key, temp, monthlyData);
    assert keys' == Dedup(oneontaMonths + (months + [key]));
    assert forall d :: d in data <==> d in keys';
    assert forall m :: m in data ==>
      data[m] == MonthGroups(Bucket(oneontaMonths, oneontaTemps, m), Bucket(months + [key], temps + [temp], m));
    assert MonthsGrouped(oneontaMonths, oneontaTemps, months + [key], temps + [temp], keys', data);
  }

  lemma GreenvilleValuesStep<K(!new)>(oneontaMonths: seq<K>, oneontaTemps: seq<real>,
                             months: seq<K>, temps: seq<real>, key: K, temp: real,
                             monthlyData: map<K, MonthGroups>)
    requires |oneontaMonths| == |oneontaTemps| && |months| == |temps|
    requires forall m :: m in monthlyData ==>
      monthlyData[m] == MonthGroups(Bucket(oneontaMonths, oneontaTemps, m), Bucket(months, temps, m))
    requires key !in monthlyData ==> key !in oneontaMonths && key !in months
    ensures var entry := EntryOf(monthlyData, key);
      var data := monthlyData[key := entry.(greenville := entry.greenville + [temp])];
      forall m :: m in data ==>
        data[m] == MonthGroups(Bucket(oneontaMonths, oneontaTemps, m), Bucket(months + [key], temps + [temp], m))
  {
    var entry := EntryOf(monthlyData, key);
    var data := monthlyData[key := entry.(greenville := entry.greenville + [temp])];
    forall m | m in data
      ensures data[m] == MonthGroups(Bucket(oneontaMonths, oneontaTemps, m), Bucket(months + [key], temps + [temp], m))
    {
      BucketSnoc(months, temps, key, temp, m);
      if m == key {
        if key !in monthlyData {
          assert Bucket(oneontaMonths, oneontaTemps, key) == [];
          assert Bucket(months, temps, key) == [];
        }
      } else {
        assert data[m] == monthlyData[m];
      }
    }
  }

  /** The two `forEach` walks that fill `monthlyData`, Oneonta first. */
  method GroupByMonth(
    oneontaMonths: seq<MonthKey>, oneontaTemps: seq<real>,
    greenvilleMonths: seq<MonthKey>, greenvilleTemps: seq<real>)
    returns (keys: seq<MonthKey>, monthlyData: map<MonthKey, MonthGroups>)
    requires |oneontaMonths| == |oneontaTemps| && |greenvilleMonths| == |greenvilleTemps|
    ensures MonthsGrouped(oneontaMonths, oneontaTemps, greenvilleMonths, greenvilleTemps, keys, monthlyData)
  {
    keys, monthlyData := [], map[];
    var i := 0;
    while i < |oneontaMonths|
      invariant 0 <= i <= |oneontaMonths|
      invariant OneontaGrouped(oneontaMonths[..i], oneontaTemps[..i], keys, monthlyData)
    {
      var key := oneontaMonths[i];
      OneontaStep(oneontaMonths[..i], oneontaTemps[..i], key, oneontaTemps[i], keys, monthlyData);
      if key !in monthlyData {
        keys := keys + [key];
      }
      var entry := EntryOf(monthlyData, key);
      monthlyData := monthlyData[key := entry.(oneonta := entry.oneonta + [oneontaTemps[i]])];
      assert OneontaGrouped(oneontaMonths[..i] + [key], oneontaTemps[..i] + [oneontaTemps[i]], keys, monthlyData);
      PrefixSnoc(oneontaMonths, i);
      PrefixSnoc(oneontaTemps, i);
      i := i + 1;
    }
    OneontaDone(oneontaMonths, oneontaTemps, greenvilleMonths, greenvilleTemps, keys, monthlyData);
    var j := 0;
    while j < |greenvilleMonths|
      invariant 0 <= j <= |greenvilleMonths|
      invariant MonthsGrouped(oneontaMonths, oneontaTemps, greenvilleMonths[..j], greenvilleTemps[..j], keys, monthlyData)
    {
      var key := greenvilleMonths[j];
      GreenvilleStep(oneontaMonths, oneontaTemps, greenvilleMonths[..j], greenvilleTemps[..j],
                     key, greenvilleTemps[j], keys, monthlyData);
      if key !in monthlyData {
        keys := keys + [key];
      }
      var entry := EntryOf(monthlyData, key);
      monthlyData := monthlyData[key := entry.(greenville := entry.greenville + [greenvilleTemps[j]])];
      assert MonthsGrouped(oneontaMonths, oneontaTemps, greenvilleMonths[..j] + [key],
                           greenvilleTemps[..j] + [greenvilleTemps[j]], keys, monthlyData);
      PrefixSnoc(greenvilleMonths, j);
      PrefixSnoc(greenvilleTemps, j);
      j := j + 1;
    }
    GreenvilleDone(oneontaMonths, oneontaTemps, greenvilleMonths, greenvilleTemps, keys, monthlyData);
  }

  lemma OneontaDone<K(!new)>(
    oneontaMonths: seq<K>, oneontaTemps: seq<real>,
    greenvilleMonths: seq<K>, greenvilleTemps: seq<real>,
    keys: seq<K>, monthlyData: map<K, MonthGroups>)
    requires |oneontaMonths| == |oneontaTemps| && |greenvilleMonths| == |greenvilleTemps|
    requires OneontaGrouped(oneontaMonths[..|oneontaMonths|], oneontaTemps[..|oneontaTemps|], keys, monthlyData)
    ensures MonthsGrouped(oneontaMonths, oneontaTemps, greenvilleMonths[..0], greenvilleTemps[..0], keys, monthlyData)
  {
    assert oneontaMonths[..|oneontaMonths|] == oneontaMonths + greenvilleMonths[..0];
    assert oneontaMonths[..|oneontaMonths|] == oneontaMonths;
    assert oneontaTemps[..|oneontaTemps|] == oneontaTemps;
  }

  lemma GreenvilleDone<K(!new)>(
    oneontaMonths: seq<K>, oneontaTemps: seq<real>,
    greenvilleMonths: seq<K>, greenvilleTemps: seq<real>,
    keys: seq<K>, monthlyData: map<K, MonthGroups>)
    requires |oneontaMonths| == |oneontaTemps| && |greenvilleMonths| == |greenvilleTemps|
    requires MonthsGrouped(oneontaMonths, oneontaTemps, greenvilleMonths[..|greenvilleMonths|],
                           greenvilleTemps[..|greenvilleTemps|], keys, monthlyData)
    ensures MonthsGrouped(oneontaMonths, oneontaTemps, greenvilleMonths, greenvilleTemps, keys, monthlyData)
  {
    assert greenvilleMonths[..|greenvilleMonths|] == greenvilleMonths;
    assert greenvilleTemps[..|greenvilleTemps|] == greenvilleTemps;
  }

  /** The entry of a month of the chart holds that month's samples. */
  lemma MonthEntry<K(!new)>(
    oneontaMonths: seq<K>, oneontaTemps: seq<real>,
    greenvilleMonths: seq<K>, greenvilleTemps: seq<real>,
    keys: seq<K>, monthlyData: map<K, MonthGroups>, key: K)
    requires |oneontaMonths| == |oneontaTemps| && |greenvilleMonths| == |greenvilleTemps|
    requires MonthsGrouped(oneontaMonths, oneontaTemps, greenvilleMonths, greenvilleTemps, keys, monthlyData)
    requires key in multiset(keys)
    ensures key in monthlyData
    ensures monthlyData[key] == MonthGroups(Bucket(oneontaMonths, oneontaTemps, key),
                                            Bucket(greenvilleMonths, greenvilleTemps, key))
  {
  }

  /** The `forEach` over the sorted keys: one label and one average per
      location for each month, 0 for a location without samples that month. */
  method AverageByMonth(months: seq<MonthKey>, monthlyData: map<MonthKey, MonthGroups>)
    returns (labels: seq<MonthLabel>, oneontaAvgs: seq<real>, greenvilleAvgs: seq<real>)
    requires forall k :: 0 <= k < |months| ==> months[k] in monthlyData
    ensures |labels| == |months| && |oneontaAvgs| == |months| && |greenvilleAvgs| == |months|
    ensures forall k :: 0 <= k < |months| ==>
      && labels[k] == Label(months[k])
      && oneontaAvgs[k] == MeanOrZero(monthlyData[months[k]].oneonta)
      && greenvilleAvgs[k] == MeanOrZero(monthlyData[months[k]].greenville)
  {
    labels, oneontaAvgs, greenvilleAvgs := [], [], [];
    var t := 0;
    while t < |months|
      invariant 0 <= t <= |months|
      invariant |labels| == t && |oneontaAvgs| == t && |greenvilleAvgs| == t
      invariant forall k :: 0 <= k < t ==>
        && labels[k] == Label(months[k])
        && oneontaAvgs[k] == MeanOrZero(monthlyData[months[k]].oneonta)
        && greenvilleAvgs[k] == MeanOrZero(monthlyData[months[k]].greenville)
    {
      var key := months[t];
      var groups := monthlyData[key];
      var oneontaAvg := if |groups.oneonta| > 0 then Sum(groups.oneonta) / |groups.oneonta| as real else 0.0;
      var greenvilleAvg := if |groups.greenville| > 0 then Sum(groups.greenville) / |groups.greenville| as real else 0.0;
      labels := labels + [Label(key)];
      oneontaAvgs := oneontaAvgs + [oneontaAvg];
      greenvilleAvgs := greenvilleAvgs + [greenvilleAvg];
      t := t + 1;
    }
  }

  /** `displayMonthlyAverageTemperatureChart`: group both locations' daily
      mean temperatures by month into one object, then walk its keys in
      sorted order producing a label and one average per location. */
  method MonthlyAverageTemperatures(
    oneontaMonths: seq<MonthKey>, oneontaTemps: seq<real>,
    greenvilleMonths: seq<MonthKey>, greenvilleTemps: seq<real>)
    returns (labels: seq<MonthLabel>, oneontaAvgs: seq<real>, greenvilleAvgs: seq<real>)
    requires |oneontaMonths| == |oneontaTemps| && |greenvilleMonths| == |greenvilleTemps|
    ensures var months := ChartMonths(oneontaMonths, greenvilleMonths);
      && |labels| == |months| && |oneontaAvgs| == |months| && |greenvilleAvgs| == |months|
      && forall k :: 0 <= k < |months| ==>
        && labels[k] == Label(months[k])
        && oneontaAvgs[k] == MeanOrZero(Bucket(oneontaMonths, oneontaTemps, months[k]))
        && greenvilleAvgs[k] == MeanOrZero(Bucket(greenvilleMonths, greenvilleTemps, months[k]))
  {
    var keys, monthlyData := GroupByMonth(oneontaMonths, oneontaTemps, greenvilleMonths, greenvilleTemps);
    var months := SortKeys(keys);
    forall k | 0 <= k < |months|
      ensures months[k] in monthlyData
      ensures monthlyData[months[k]] == MonthGroups(Bucket(oneontaMonths, oneontaTemps, months[k]),
                                                    Bucket(greenvilleMonths, greenvilleTemps, months[k]))
    {
      assert months[k] in multiset(months);
      MonthEntry(oneontaMonths, oneontaTemps, greenvilleMonths, greenvilleTemps, keys, monthlyData, months[k]);
    }
    labels, oneontaAvgs, greenvilleAvgs := AverageByMonth(months, monthlyData);
  }

  /** The chart's months are strictly ascending (so each appears once) and
      there are as many as distinct months in the two series. */
  lemma ChartMonthsSorted(oneontaMonths: seq<MonthKey>, greenvilleMonths: seq<MonthKey>)
    ensures var months := ChartMonths(oneontaMonths, greenvilleMonths);
      && Ascending(months)
      && NoDups(months)
      && |months| == |Elements(oneontaMonths + greenvilleMonths)|
  {
    var all := oneontaMonths + greenvilleMonths;
    var months := ChartMonths(oneontaMonths, greenvilleMonths);
    DedupLength(all);
    assert |months| == |Dedup(all)| by {
      assert |multiset(months)| == |multiset(Dedup(all))|;
    }
  }

  /** The chart's months are exactly the months either location has a
      sample in, and a location without samples in a month gets 0 there. */
  lemma ChartMonthsMembers(oneontaMonths: seq<MonthKey>, oneontaTemps: seq<real>,
                           greenvilleMonths: seq<MonthKey>, greenvilleTemps: seq<real>)
    requires |oneontaMonths| == |oneontaTemps| && |greenvilleMonths| == |greenvilleTemps|
    ensures var months := ChartMonths(oneontaMonths, greenvilleMonths);
      && (forall m :: m in months <==> m in oneontaMonths || m in greenvilleMonths)
      && (forall k :: 0 <= k < |months| && months[k] !in oneontaMonths ==>
            MeanOrZero(Bucket(oneontaMonths, oneontaTemps, months[k])) == 0.0)
      && (forall k :: 0 <= k < |months| && months[k] !in greenvilleMonths ==>
            MeanOrZero(Bucket(greenvilleMonths, greenvilleTemps, months[k])) == 0.0)
  {
    var all := oneontaMonths + greenvilleMonths;
    var distinct := Dedup(all);
    var months := ChartMonths(oneontaMonths, greenvilleMonths);
    DedupMembers(all);
    forall m
      ensures m in months <==> m in oneontaMonths || m in greenvilleMonths
    {
      assert m in months <==> m in multiset(distinct);
      assert m in all <==> m in oneontaMonths || m in greenvilleMonths;
    }
  }

  // ---------------------------------------------------------------------
  // Seven-day comparison table

  /** The four rows shown for each day, in display order. */
  datatype DailyMetric = HighTemp | LowTemp | Precipitation | UvIndex

  const DailyMetrics: seq<DailyMetric> := [HighTemp, LowTemp, Precipitation, UvIndex]

  /** The daily value a metric row reads at day `i`. */
  function DailyValue(daily: Daily, metric: DailyMetric, i: nat): real
    requires daily.Aligned() && i < |daily.time|
  {
    match metric
    case HighTemp => daily.temperatureMax[i]
    case LowTemp => daily.temperatureMin[i]
    case Precipitation => daily.precipitationSum[i]
    case UvIndex => daily.uvIndexMax[i]
  }

  /** One table row: the date cell (filled only on a day's first row), the
      metric, both locations' values and their difference. */
  datatype TableRow = TableRow(date: Option<string>, metric: DailyMetric,
                               oneonta: real, greenville: real, difference: real)

  /** The rows the `metrics.forEach` appends for day `i`. */
  function DayRows(oneonta: Daily, greenville: Daily, i: nat): (rows: seq<TableRow>)
    requires oneonta.Aligned() && greenville.Aligned()
    requires i < |oneonta.time| && i < |greenville.time|
    ensures |rows| == |DailyMetrics|
  {
    seq(|DailyMetrics|, j requires 0 <= j < |DailyMetrics| =>
      var metric := DailyMetrics[j];
      var o := DailyValue(oneonta, metric, i);
      var g := DailyValue(greenville, metric, i);
      TableRow(if j == 0 then Some(oneonta.time[i]) else None, metric, o, g, o - g))
  }

  /** The comparison table: four rows for each of the first seven days of
      Oneonta's forecast (fewer days when there are fewer). Row `k` belongs
      to day `k / 4` and shows metric `k % 4`; only a day's first row
      carries the date, and every difference is Oneonta minus Greenville.
      Greenville's arrays must cover those days, since its precipitation is
      formatted with `toFixed`. */
  method ComparisonTable(oneonta: Daily, greenville: Daily) returns (rows: seq<TableRow>)
    requires oneonta.Aligned() && greenville.Aligned()
    requires Min(DaysShown, |oneonta.time|) <= |greenville.time|
    ensures |rows| == |DailyMetrics| * Min(DaysShown, |oneonta.time|)
    ensures forall k :: 0 <= k < |rows| ==>
      && k / 4 < |oneonta.time| && k / 4 < |greenville.time|
      && rows[k].metric == DailyMetrics[k % 4]
      && rows[k].date == (if k % 4 == 0 then Some(oneonta.time[k / 4]) else None)
      && rows[k].oneonta == DailyValue(oneonta, rows[k].metric, k / 4)
      && rows[k].greenville == DailyValue(greenville, rows[k].metric, k / 4)
      && rows[k].difference == rows[k].oneonta - rows[k].greenville
  {
    rows := [];
    var i := 0;
    while i < DaysShown && i < |oneonta.time|
      invariant i <= DaysShown && i <= |oneonta.time|
      invariant |rows| == 4 * i
      invariant forall k :: 0 <= k < |rows| ==>
        && k / 4 < i
        && rows[k].metric == DailyMetrics[k % 4]
        && rows[k].date == (if k % 4 == 0 then Some(oneonta.time[k / 4]) else None)
        && rows[k].oneonta == DailyValue(oneonta, rows[k].metric, k / 4)
        && rows[k].greenville == DailyValue(greenville, rows[k].metric, k / 4)
        && rows[k].difference == rows[k].oneonta - rows[k].greenville
    {
      var day := DayRows(oneonta, greenville, i);
      rows := rows + day;
      forall k | 4 * i <= k < 4 * i + 4
        ensures k / 4 == i && k % 4 == k - 4 * i && rows[k] == day[k - 4 * i]
      {
      }
      i := i + 1;
    }
  }
}
