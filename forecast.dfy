/** The parts of a forecast document the dashboards read: the `hourly` and
    `daily` blocks, each a set of index-aligned arrays. JSON numbers are
    modelled as reals, weather codes as integers and timestamps as the
    ISO-8601 strings the documents carry. */
module Forecast {

  /** `hourly`: `time`, `temperature_2m`, `precipitation`,
      `sunshine_duration` (seconds) and `weather_code`. */
  datatype Hourly = Hourly(
    time: seq<string>,
    temperature: seq<real>,
    precipitation: seq<real>,
    sunshine: seq<real>,
    weatherCode: seq<int>)
  {
    /** The data producer writes every array of the block with one entry per timestamp. */
    predicate Aligned() {
      && |temperature| == |time|
      && |precipitation| == |time|
      && |sunshine| == |time|
      && |weatherCode| == |time|
    }
  }

  /** `daily`: `time`, `temperature_2m_max`, `temperature_2m_min`,
      `precipitation_sum`, `precipitation_probability_max`, `uv_index_max`
      and `weather_code`. */
  datatype Daily = Daily(
    time: seq<string>,
    temperatureMax: seq<real>,
    temperatureMin: seq<real>,
    precipitationSum: seq<real>,
    precipitationProbabilityMax: seq<real>,
    uvIndexMax: seq<real>,
    weatherCode: seq<int>)
  {
    predicate Aligned() {
      && |temperatureMax| == |time|
      && |temperatureMin| == |time|
      && |precipitationSum| == |time|
      && |precipitationProbabilityMax| == |time|
      && |uvIndexMax| == |time|
      && |weatherCode| == |time|
    }
  }

  /** `seconds.map(s => s / 3600)`: sunshine durations in hours. */
  function SecondsToHours(seconds: seq<real>): (hours: seq<real>)
    ensures |hours| == |seconds|
    ensures forall k :: 0 <= k < |hours| ==> hours[k] * 3600.0 == seconds[k]
  {
    seq(|seconds|, k requires 0 <= k < |seconds| => seconds[k] / 3600.0)
  }
}
