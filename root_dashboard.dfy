/** The computations of the `WeatherDashboard` class in app.js: the
    hour-prefix search for the current hour, the hourly strip, the
    168-hour comparison window and its charts' series, the comparison
    table that samples the window once a day, and the three-strip hourly
    precipitation comparison.

    As in the other dashboard, the modelled routines only read the loaded
    documents, so each operation takes them as parameters; chart and DOM output is
    modelled as the sequences handed to them. */
module RootDashboard {
  import opened Sequences
  import opened Forecast

  // ---------------------------------------------------------------------
  // Current hour

  /** The first 13 characters of `now.toISOString()` (`YYYY-MM-DDTHH`),
      taken after `':00'` is appended and again sliced to 13 characters. */
  function HourKey(iso: string): (key: string)
    ensures |key| <= 13
    ensures |iso| >= 13 ==> key == iso[..13]
  {
    var target := iso[..Min(13, |iso|)] + ":00";
    target[..Min(13, |target|)]
  }

  /** `times.findIndex(t => t.startsWith(prefix))` from index `from`:
      the first index at or after `from` whose timestamp starts with
      `prefix`, or -1 when there is none. */
  function FindIndexStartingWith(times: seq<string>, prefix: string, from: nat): (r: int)
    requires from <= |times|
    ensures r == -1 || from <= r < |times|
    ensures r == -1 <==> forall j :: from <= j < |times| ==> !(prefix <= times[j])
    ensures r != -1 ==> prefix <= times[r] && forall j :: from <= j < r ==> !(prefix <= times[j])
    decreases |times| - from
  {
    if from == |times| then -1
    else if prefix <= times[from] then from
    else FindIndexStartingWith(times, prefix, from + 1)
  }

  /** `findNearestHourIndex`: the first timestamp in the current hour, or
      0 when no timestamp is, including when there are none. */
  function FindNearestHourIndex(times: seq<string>, iso: string): (index: nat)
    ensures |times| > 0 ==> index < |times|
    ensures |times| == 0 ==> index == 0
    ensures (exists j :: 0 <= j < |times| && HourKey(iso) <= times[j]) ==>
      && HourKey(iso) <= times[index]
      && forall j :: 0 <= j < index ==> !(HourKey(iso) <= times[j])
    ensures (forall j :: 0 <= j < |times| ==> !(HourKey(iso) <= times[j])) ==> index == 0
  {
    var found := FindIndexStartingWith(times, HourKey(iso), 0);
    if found >= 0 then found else 0
  }

  // ---------------------------------------------------------------------
  // Hourly strip

  const HourlyCap := 24

  /** One cell of the hourly strip. */
  datatype HourlyItem = HourlyItem(time: string, temperature: real, precipitation: real)

  /** `displayHourlyForecast`: the cells from `start`, at most 24 and never past the data. */
  method HourlyForecast(hourly: Hourly, start: nat) returns (items: seq<HourlyItem>)
    requires hourly.Aligned()
    ensures |items| == CappedRun(HourlyCap, start, |hourly.time|)
    ensures forall k :: 0 <= k < |items| ==>
      && start + k < |hourly.time|
      && items[k] == HourlyItem(hourly.time[start + k], hourly.temperature[start + k],
                                hourly.precipitation[start + k])
  {
    items := [];
    var i := 0;
    while i < HourlyCap && start + i < |hourly.time|
      invariant i <= HourlyCap
      invariant i > 0 ==> start + i <= |hourly.time|
      invariant |items| == i
      invariant forall k :: 0 <= k < i ==>
        && start + k < |hourly.time|
        && items[k] == HourlyItem(hourly.time[start + k], hourly.temperature[start + k],
                                  hourly.precipitation[start + k])
    {
      var index := start + i;
      items := items + [HourlyItem(hourly.time[index], hourly.temperature[index], hourly.precipitation[index])];
      i := i + 1;
    }
  }

  // ---------------------------------------------------------------------
  // Seven-day comparison window

  /** Seven days of hours. */
  const WeekHours := 168

  /** The series the three comparison charts plot, all cut from the same
      range of hours; sunshine is in hours rather than seconds. */
  datatype ComparisonWindow = ComparisonWindow(
    start: nat, end: nat, times: seq<string>,
    oneontaTemperature: seq<real>, greenvilleTemperature: seq<real>,
    oneontaPrecipitation: seq<real>, greenvillePrecipitation: seq<real>,
    oneontaSunHours: seq<real>, greenvilleSunHours: seq<real>)

  /** The window `displayComparisonCharts` plots: from `start` to
      `min(start + 168, length)` of Oneonta's timestamps, every series
      sliced with the same bounds. */
  function Window(oneonta: Hourly, greenville: Hourly, start: nat): (w: ComparisonWindow)
    ensures w.start == start
    ensures w.end <= |oneonta.time| && w.end <= start + WeekHours
    ensures w.end == |oneonta.time| || w.end == start + WeekHours
    ensures forall k :: 0 <= k < |w.times| ==>
      start + k < |oneonta.time| && w.times[k] == oneonta.time[start + k]
    ensures forall k :: 0 <= k < |w.oneontaTemperature| ==>
      start + k < |oneonta.temperature| && w.oneontaTemperature[k] == oneonta.temperature[start + k]
    ensures forall k :: 0 <= k < |w.greenvilleTemperature| ==>
      start + k < |greenville.temperature| && w.greenvilleTemperature[k] == greenville.temperature[start + k]
    ensures forall k :: 0 <= k < |w.oneontaPrecipitation| ==>
      start + k < |oneonta.precipitation| && w.oneontaPrecipitation[k] == oneonta.precipitation[start + k]
    ensures forall k :: 0 <= k < |w.greenvillePrecipitation| ==>
      start + k < |greenville.precipitation| && w.greenvillePrecipitation[k] == greenville.precipitation[start + k]
    ensures forall k :: 0 <= k < |w.oneontaSunHours| ==>
      start + k < |oneonta.sunshine| && w.oneontaSunHours[k] * 3600.0 == oneonta.sunshine[start + k]
    ensures forall k :: 0 <= k < |w.greenvilleSunHours| ==>
      start + k < |greenville.sunshine| && w.greenvilleSunHours[k] * 3600.0 == greenville.sunshine[start + k]
    ensures oneonta.Aligned() && greenville.Aligned() && |greenville.time| == |oneonta.time| ==>
      var n := Max(0, w.end - start);
      && |w.times| == n
      && |w.oneontaTemperature| == n && |w.greenvilleTemperature| == n
      && |w.oneontaPrecipitation| == n && |w.greenvillePrecipitation| == n
      && |w.oneontaSunHours| == n && |w.greenvilleSunHours| == n
  {
    var end := Min(start + WeekHours, |oneonta.time|);
    ComparisonWindow(
      start, end, Slice(oneonta.time, start, end),
      Slice(oneonta.temperature, start, end), Slice(greenville.temperature, start, end),
      Slice(oneonta.precipitation, start, end), Slice(greenville.precipitation, start, end),
      SecondsToHours(Slice(oneonta.sunshine, start, end)),
      SecondsToHours(Slice(greenville.sunshine, start, end)))
  }

  // ---------------------------------------------------------------------
  // Comparison table

  /** The three rows shown for each sampled hour, in display order. */
  datatype Metric = Temperature | Precipitation | Sunshine

  const Metrics: seq<Metric> := [Temperature, Precipitation, Sunshine]

  /** The hourly value a metric row reads at hour `i`; sunshine in hours. */
  function HourlyValue(hourly: Hourly, metric: Metric, i: nat): real
    requires hourly.Aligned() && i < |hourly.time|
  {
    match metric
    case Temperature => hourly.temperature[i]
    case Precipitation => hourly.precipitation[i]
    case Sunshine => hourly.sunshine[i] / 3600.0
  }

  /** One table row: the sampled timestamp, the metric, both values, their
      difference and whether it is shown with a leading `'+'`. */
  datatype ComparisonRow = ComparisonRow(time: string, metric: Metric, oneonta: real,
                                         greenville: real, difference: real, plusSign: bool)

  /** The number of passes of `for (i = start; i < end; i += 24)`: the
      least `n` for which `start + 24 n` reaches `end`. */
  function Visits(start: nat, end: nat): (n: nat)
    ensures start + 24 * n >= end
    ensures n > 0 ==> start + 24 * (n - 1) < end
  {
    if start < end then (end - start + 23) / 24 else 0
  }

  /** The rows the `metrics.forEach` appends for hour `i`. */
  function HourRows(oneonta: Hourly, greenville: Hourly, i: nat): (rows: seq<ComparisonRow>)
    requires oneonta.Aligned() && greenville.Aligned()
    requires i < |oneonta.time| && i < |greenville.time|
    ensures |rows| == |Metrics|
  {
    seq(|Metrics|, j requires 0 <= j < |Metrics| =>
      var metric := Metrics[j];
      var o := HourlyValue(oneonta, metric, i);
      var g := HourlyValue(greenville, metric, i);
      ComparisonRow(oneonta.time[i], metric, o, g, o - g, o - g > 0.0))
  }

  /** `populateComparisonTable`: every 24th hour of `[start, end)`, three
      rows each. Row `k` samples hour `start + 24 (k / 3)` and shows metric
      `k % 3`; its difference is Oneonta minus Greenville and carries a
      `'+'` exactly when it is positive. Both locations' arrays must cover
      the sampled hours, since their precipitation is formatted with
      `toFixed`; hours of the window that are not sampled are never read. */
  method PopulateComparisonTable(oneonta: Hourly, greenville: Hourly, start: nat, end: nat)
    returns (rows: seq<ComparisonRow>)
    requires oneonta.Aligned() && greenville.Aligned()
    requires Visits(start, end) > 0 ==> start + 24 * (Visits(start, end) - 1) < |oneonta.time|
    requires Visits(start, end) > 0 ==> start + 24 * (Visits(start, end) - 1) < |greenville.time|
    ensures |rows| == |Metrics| * Visits(start, end)
    ensures forall k :: 0 <= k < |rows| ==>
      && start <= start + 24 * (k / 3) < end
      && rows[k].time == oneonta.time[start + 24 * (k / 3)]
      && rows[k].metric == Metrics[k % 3]
      && rows[k].oneonta == HourlyValue(oneonta, rows[k].metric, start + 24 * (k / 3))
      && rows[k].greenville == HourlyValue(greenville, rows[k].metric, start + 24 * (k / 3))
      && rows[k].difference == rows[k].oneonta - rows[k].greenville
      && (rows[k].plusSign <==> rows[k].difference > 0.0)
  {
    rows := [];
    var i := start;
    ghost var visited := 0;
    while i < end
      invariant i == start + 24 * visited
      invariant visited <= Visits(start, end)
      invariant i < end ==> visited < Visits(start, end)
      invariant i >= end ==> visited == Visits(start, end)
      invariant |rows| == 3 * visited
      invariant forall k :: 0 <= k < |rows| ==>
        && start <= start + 24 * (k / 3) < end
        && rows[k].time == oneonta.time[start + 24 * (k / 3)]
        && rows[k].metric == Metrics[k % 3]
        && rows[k].oneonta == HourlyValue(oneonta, rows[k].metric, start + 24 * (k / 3))
        && rows[k].greenville == HourlyValue(greenville, rows[k].metric, start + 24 * (k / 3))
        && rows[k].difference == rows[k].oneonta - rows[k].greenville
        && (rows[k].plusSign <==> rows[k].difference > 0.0)
      decreases end - i
    {
      var hour := HourRows(oneonta, greenville, i);
      rows := rows + hour;
      forall k | 3 * visited <= k < 3 * visited + 3
        ensures k / 3 == visited && k % 3 == k - 3 * visited && rows[k] == hour[k - 3 * visited]
      {
      }
      i := i + 24;
      visited := visited + 1;
    }
  }

  /** With a full week of data from `start`, every series of the window
      holds 168 hours and the table samples seven of them (21 rows). */
  lemma FullWeekWindow(oneonta: Hourly, greenville: Hourly, start: nat)
    requires oneonta.Aligned() && greenville.Aligned() && |greenville.time| == |oneonta.time|
    requires start + WeekHours <= |oneonta.time|
    ensures var w := Window(oneonta, greenville, start);
      && w.end == start + WeekHours
      && |w.times| == WeekHours && |w.oneontaSunHours| == WeekHours
      && |Metrics| * Visits(w.start, w.end) == 21
  {
    var w := Window(oneonta, greenville, start);
    assert w.end == start + WeekHours;
    assert Visits(start, start + WeekHours) == 7;
  }

  /** Starting at the current hour of a non-empty forecast, the window
      holds between one and 168 hours of every series, and the table
      between one and seven sampled hours. */
  lemma WindowFromCurrentHour(oneonta: Hourly, greenville: Hourly, iso: string)
    requires oneonta.Aligned() && greenville.Aligned() && |greenville.time| == |oneonta.time|
    requires |oneonta.time| > 0
    ensures var w := Window(oneonta, greenville, FindNearestHourIndex(oneonta.time, iso));
      && w.start < w.end
      && 1 <= |w.times| <= WeekHours
      && |w.greenvilleSunHours| == |w.times|
      && 1 <= Visits(w.start, w.end) <= 7
  {
    var start := FindNearestHourIndex(oneonta.time, iso);
    var w := Window(oneonta, greenville, start);
    assert start < w.end;
  }

  // ---------------------------------------------------------------------
  // Hourly precipitation comparison

  /** One cell of a location's precipitation strip; `wet` picks the darker
      background. */
  datatype PrecipCell = PrecipCell(time: string, amount: real, wet: bool)

  /** How a difference cell is coloured: Oneonta's colour when it is
      wetter, Greenville's when that is, neutral otherwise. */
  datatype Tone = OneontaWetter | GreenvilleWetter | Even

  /** The colour choice by the difference's sign; a missing Greenville
      value makes the difference `NaN`, which is neither sign. */
  function ToneOf(difference: Option<real>): Tone
  {
    match difference
    case None => Even
    case Some(d) => if d > 0.0 then OneontaWetter else if d < 0.0 then GreenvilleWetter else Even
  }

  /** One cell of the difference strip: `None` where Greenville has no value. */
  datatype DifferenceCell = DifferenceCell(time: string, difference: Option<real>, tone: Tone)

  /** One location's loop: at most 24 hours from `start`, bounded by that
      location's own precipitation array. */
  method PrecipStrip(hourly: Hourly, start: nat) returns (strip: seq<PrecipCell>)
    requires hourly.Aligned()
    ensures |strip| == CappedRun(HourlyCap, start, |hourly.precipitation|)
    ensures forall k :: 0 <= k < |strip| ==>
      && start + k < |hourly.precipitation|
      && strip[k] == PrecipCell(hourly.time[start + k], hourly.precipitation[start + k],
                                hourly.precipitation[start + k] > 0.0)
  {
    strip := [];
    var i := 0;
    while i < HourlyCap && start + i < |hourly.precipitation|
      invariant i <= HourlyCap
      invariant i > 0 ==> start + i <= |hourly.precipitation|
      invariant |strip| == i
      invariant forall k :: 0 <= k < i ==>
        && start + k < |hourly.precipitation|
        && strip[k] == PrecipCell(hourly.time[start + k], hourly.precipitation[start + k],
                                  hourly.precipitation[start + k] > 0.0)
    {
      var index := start + i;
      var precip := hourly.precipitation[index];
      strip := strip + [PrecipCell(hourly.time[index], precip, precip > 0.0)];
      i := i + 1;
    }
  }

  /** The difference loop: bounded by Oneonta's array, Oneonta minus
      Greenville at each hour, coloured by its sign. */
  method DifferenceStrip(oneonta: Hourly, greenville: Hourly, start: nat) returns (strip: seq<DifferenceCell>)
    requires oneonta.Aligned()
    ensures |strip| == CappedRun(HourlyCap, start, |oneonta.precipitation|)
    ensures forall k :: 0 <= k < |strip| ==>
      && start + k < |oneonta.precipitation|
      && strip[k].time == oneonta.time[start + k]
      && strip[k].difference ==
           (if start + k < |greenville.precipitation|
            then Some(oneonta.precipitation[start + k] - greenville.precipitation[start + k])
            else None)
      && (strip[k].tone == OneontaWetter <==> strip[k].difference.Some? && strip[k].difference.value > 0.0)
      && (strip[k].tone == GreenvilleWetter <==> strip[k].difference.Some? && strip[k].difference.value < 0.0)
  {
    strip := [];
    var i := 0;
    while i < HourlyCap && start + i < |oneonta.precipitation|
      invariant i <= HourlyCap
      invariant i > 0 ==> start + i <= |oneonta.precipitation|
      invariant |strip| == i
      invariant forall k :: 0 <= k < i ==>
        && start + k < |oneonta.precipitation|
        && strip[k].time == oneonta.time[start + k]
        && strip[k].difference ==
             (if start + k < |greenville.precipitation|
              then Some(oneonta.precipitation[start + k] - greenville.precipitation[start + k])
              else None)
        && strip[k].tone == ToneOf(strip[k].difference)
    {
      var index := start + i;
      var diff := if index < |greenville.precipitation|
                  then Some(oneonta.precipitation[index] - greenville.precipitation[index])
                  else None;
      strip := strip + [DifferenceCell(oneonta.time[index], diff, ToneOf(diff))];
      i := i + 1;
    }
  }

  /** `displayPrecipitationComparison`: the two locations' strips and the
      difference strip, all from the same starting hour. */
  method PrecipitationComparison(oneonta: Hourly, greenville: Hourly, start: nat)
    returns (oneontaStrip: seq<PrecipCell>, greenvilleStrip: seq<PrecipCell>, differenceStrip: seq<DifferenceCell>)
    requires oneonta.Aligned() && greenville.Aligned()
    ensures |oneontaStrip| == |differenceStrip| == CappedRun(HourlyCap, start, |oneonta.time|)
    ensures |greenvilleStrip| == CappedRun(HourlyCap, start, |greenville.time|)
    ensures forall k :: 0 <= k < |oneontaStrip| ==>
      oneontaStrip[k] == PrecipCell(oneonta.time[start + k], oneonta.precipitation[start + k],
                                    oneonta.precipitation[start + k] > 0.0)
    ensures forall k :: 0 <= k < |greenvilleStrip| ==>
      greenvilleStrip[k] == PrecipCell(greenville.time[start + k], greenville.precipitation[start + k],
                                       greenville.precipitation[start + k] > 0.0)
    ensures forall k :: 0 <= k < |differenceStrip| && k < |greenvilleStrip| ==>
      differenceStrip[k].difference == Some(oneontaStrip[k].amount - greenvilleStrip[k].amount)
    ensures forall k :: 0 <= k < |differenceStrip| ==>
      && start + k < |oneonta.precipitation|
      && differenceStrip[k].time == oneonta.time[start + k]
      && differenceStrip[k].difference ==
           (if start + k < |greenville.precipitation|
            then Some(oneonta.precipitation[start + k] - greenville.precipitation[start + k])
            else None)
      && (differenceStrip[k].tone == OneontaWetter <==>
            differenceStrip[k].difference.Some? && differenceStrip[k].difference.value > 0.0)
      && (differenceStrip[k].tone == GreenvilleWetter <==>
            differenceStrip[k].difference.Some? && differenceStrip[k].difference.value < 0.0)
  {
    oneontaStrip := PrecipStrip(oneonta, start);
    greenvilleStrip := PrecipStrip(greenville, start);
    differenceStrip := DifferenceStrip(oneonta, greenville, start);
  }
}
