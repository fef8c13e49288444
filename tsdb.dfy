/** resultToMetrics of outputs/tsdb/tsdb.go: a Result becomes the list of
    samples appended to the time-series database. Metric names and label
    names are the constants of outputs/prometheus/metrics.go; the current
    time is a parameter in nanoseconds since the Unix epoch. */
module Tsdb {

  import opened Wrappers
  import opened Model
  import Advertisements

  const Namespace := "flowercare"
  const LabelAddress := "macaddress"
  const LabelName := "name"
  const LabelVersion := "version"
  /** The label that carries the metric name. */
  const MetricNameLabel := "__name__"

  const InfoName := "flowercare_info"
  const BatteryName := "flowercare_battery"
  const ConductivityName := "flowercare_conductivity_sm"
  const BrightnessName := "flowercare_brightness_lux"
  const MoistureName := "flowercare_moisture_percent"
  const TemperatureName := "flowercare_temperature_celsius"

  /** One sample: its label set, its time in milliseconds and its value. */
  datatype Metric = Metric(labels: map<string, string>, t: int, value: real)

  /** timestamp.FromTime: whole milliseconds, rounded down. */
  function Millis(nanos: int): (ms: int)
    ensures ms * 1_000_000 <= nanos < ms * 1_000_000 + 1_000_000
  {
    nanos / 1_000_000
  }

  /** The sample time: the Result's own timestamp if it has one, else now. */
  function SampleTime(r: SensorResult, now: int): (t: int)
    ensures var nanos := if r.timestamp.Some? then r.timestamp.value else now;
      t * 1_000_000 <= nanos < t * 1_000_000 + 1_000_000
  {
    if r.timestamp.Some? then Millis(r.timestamp.value) else Millis(now)
  }

  function DefaultLabels(r: SensorResult): map<string, string> {
    map[LabelName := r.name, LabelAddress := r.address]
  }

  function Named(r: SensorResult, name: string, t: int, value: real): Metric {
    Metric(DefaultLabels(r)[MetricNameLabel := name], t, value)
  }

  /** The readings the measurement metrics need: all four are dereferenced. */
  predicate Complete(m: Readings) {
    m.temperature.Some? && m.moisture.Some? && m.brightness.Some? && m.conductivity.Some?
  }

  /** A measurement decoded from a single advertisement holds exactly one
      reading, so it never has all four that the measurement metrics read. */
  lemma AdvertisedReadingsIncomplete(x: Advertisements.Frame)
    requires Advertisements.Values(x).Ok? && Advertisements.Values(x).value.Some?
    ensures !Complete(Advertisements.Values(x).value.value)
  {
  }

  /** What every sample of a Result carries: the sample time, the name and
      address labels, no label but the metric name and the version besides,
      and the version exactly on the info metric. */
  predicate Labelled(m: Metric, r: SensorResult, t: int) {
    && m.t == t
    && LabelName in m.labels && m.labels[LabelName] == r.name
    && LabelAddress in m.labels && m.labels[LabelAddress] == r.address
    && m.labels.Keys <= {MetricNameLabel, LabelName, LabelAddress, LabelVersion}
    && (LabelVersion in m.labels <==> MetricName(m) == InfoName)
  }

  function FirmwareMetrics(r: SensorResult, t: int): (ms: seq<Metric>)
    requires r.firmware.Some?
    ensures |ms| == 2 && forall i :: 0 <= i < 2 ==> Labelled(ms[i], r, t)
  {
    [ Metric(DefaultLabels(r)[LabelVersion := r.firmware.value.version][MetricNameLabel := InfoName], t, 1.0),
      Named(r, BatteryName, t, r.firmware.value.battery as real) ]
  }

  function MeasurementMetrics(r: SensorResult, t: int): (ms: seq<Metric>)
    requires r.measurement.Some? && Complete(r.measurement.value)
    ensures |ms| == 4 && forall i :: 0 <= i < 4 ==> Labelled(ms[i], r, t)
  {
    var m := r.measurement.value;
    [ Named(r, ConductivityName, t, ConductivityValue(m.conductivity.value)),
      Named(r, BrightnessName, t, m.brightness.value as real),
      Named(r, MoistureName, t, m.moisture.value as real),
      Named(r, TemperatureName, t, TemperatureValue(m.temperature.value)) ]
  }

  function MetricName(m: Metric): string {
    if MetricNameLabel in m.labels then m.labels[MetricNameLabel] else ""
  }

  /** resultToMetrics. */
  function ResultToMetrics(r: SensorResult, now: int): (ms: seq<Metric>)
    requires r.measurement.Some? ==> Complete(r.measurement.value)
    ensures |ms| == (if r.firmware.Some? then 2 else 0) + (if r.measurement.Some? then 4 else 0)
    ensures forall i :: 0 <= i < |ms| ==> Labelled(ms[i], r, SampleTime(r, now))
  {
    var t := SampleTime(r, now);
    (if r.firmware.Some? then FirmwareMetrics(r, t) else [])
    + (if r.measurement.Some? then MeasurementMetrics(r, t) else [])
  }

  function Names(ms: seq<Metric>): seq<string> {
    seq(|ms|, i requires 0 <= i < |ms| => MetricName(ms[i]))
  }

  /** The metrics come in a fixed order: info and battery for the firmware,
      then conductivity, brightness, moisture and temperature. */
  lemma MetricOrder(r: SensorResult, now: int)
    requires r.measurement.Some? ==> Complete(r.measurement.value)
    ensures Names(ResultToMetrics(r, now)) ==
      (if r.firmware.Some? then [InfoName, BatteryName] else [])
      + (if r.measurement.Some? then [ConductivityName, BrightnessName, MoistureName, TemperatureName] else [])
  {
  }

  /** The values: info is 1 and carries the version, battery is the battery
      level, and the readings are in their physical units. */
  lemma MetricValues(r: SensorResult, now: int)
    requires r.measurement.Some? ==> Complete(r.measurement.value)
    ensures var ms := ResultToMetrics(r, now);
      && (r.firmware.Some? ==>
           ms[0].value == 1.0 && ms[0].labels[LabelVersion] == r.firmware.value.version
           && ms[1].value == r.firmware.value.battery as real)
      && (r.measurement.Some? ==>
           var k := if r.firmware.Some? then 2 else 0;
           var m := r.measurement.value;
           && ms[k].value * 10000.0 == m.conductivity.value as real
           && ms[k + 1].value == m.brightness.value as real
           && ms[k + 2].value == m.moisture.value as real
           && ms[k + 3].value * 10.0 == m.temperature.value as real)
  {
  }

  /** Nothing to report gives no metrics. */
  lemma EmptyResult(r: SensorResult, now: int)
    requires r.firmware.None? && r.measurement.None?
    ensures ResultToMetrics(r, now) == []
  {
  }
}
