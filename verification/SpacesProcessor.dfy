/**
 The Cisco Spaces event processor (cmd/hm-cisco-spaces-collector/processor.go).
 Times are integer milliseconds; addresses arrive normalised, "" when malformed.

 The stream specification describes what an event list must have led to, with no
 stored windows; `Processor.ProcessEvent` refines it.
 */
module SpacesProcessor {
  import opened NestedMap
  import opened OrderStatistics
  import opened Sequences
  import opened Wrappers

  datatype Metric = Temperature | Humidity | Battery | Pressure | CO2 | Lux | ETVOC
  datatype BatteryMode = All | Allowlist | Off
  datatype Config = Config(sampleWindow: nat, fieldFreshness: int, uploadInterval: int,
                           batteryMode: BatteryMode, batteryAllowlist: set<string>)
  datatype Illuminance = Illuminance(value: real, unit: string)
  datatype Event = Event(eventType: string, recordTs: int, mac: string, deviceId: string,
                         temperature: Option<real>, humidity: Option<real>, pressure: Option<real>,
                         co2: Option<real>, illuminance: Option<Illuminance>, battery: Option<real>,
                             tvocPpb: Option<real>)
  datatype MetricValue = MetricValue(metric: Metric, value: real)
  datatype Sample = Sample(ts: int, value: real)
  datatype SensorReading = SensorReading(ts: int, mac: string, fields: map<Metric, real>)
  datatype Reason = NonIotTelemetryEvent | MissingRecordTs | MissingDeviceMac | DeviceIdMismatch
                  | UploadInterval | NoMetricValues | EmptyReading
  datatype Outcome = Ignored(reason: Reason) | Accepted(reading: SensorReading)

  const METRICS: set<Metric> := {Temperature, Humidity, Battery, Pressure, CO2, Lux, ETVOC}
  const MINUTE := 60_000

  // ---------------------------------------------------------------- what one event offers

  function Rejection(e: Event): Option<Reason> {
    if e.eventType != "IOT_TELEMETRY" then Some(NonIotTelemetryEvent)
    else if e.recordTs <= 0 then Some(MissingRecordTs)
    else if e.mac == "" then Some(MissingDeviceMac)
    else if e.deviceId != "" && e.deviceId != e.mac then Some(DeviceIdMismatch)
    else None
  }

  predicate ValidTemperature(value: real) { -20.0 <= value <= 60.0 }

  predicate ValidStep(last: Option<Sample>, value: real) {
    last.None? || value >= last.value.value - 3.0
  }

  predicate ReportsTemperature(e: Event) { e.temperature.Some? && e.temperature.value != 0.0 }

  predicate AdmitsTemperature(e: Event, last: Option<Sample>) {
    ReportsTemperature(e) && ValidTemperature(e.temperature.value) && ValidStep(last, e.temperature.value)
  }

  predicate ValidHumidity(value: real, temperatureInvalid: bool) {
    value != 255.0 && !(temperatureInvalid && value == 99.0) && 0.0 <= value <= 100.0
  }

  predicate AcceptBattery(cfg: Config, mac: string) {
    cfg.batteryMode == All || (cfg.batteryMode == Allowlist && mac in cfg.batteryAllowlist)
  }

  /** The value of metric m that an event contributes, given the last temperature median. */
  function Offered(cfg: Config, e: Event, last: Option<Sample>, m: Metric): Option<real> {
    match m
    case Temperature => if AdmitsTemperature(e, last) then e.temperature else None
    case Humidity =>
      if e.humidity.Some?
         && ValidHumidity(e.humidity.value, ReportsTemperature(e) && !AdmitsTemperature(e, last))
      then e.humidity else None
    case Pressure => if e.pressure.Some? && e.pressure.value != 0.0 then e.pressure else None
    case CO2 => e.co2
    case Lux =>
      if e.illuminance.Some? && e.illuminance.value.unit == "LUX" && e.illuminance.value.value != 65535.0
      then Some(e.illuminance.value.value) else None
    case Battery => if e.battery.Some? && AcceptBattery(cfg, e.mac) then e.battery else None
    case ETVOC => if e.tvocPpb.Some? then Some(e.tvocPpb.value / 1000.0) else None
  }

  // ---------------------------------------------------------------- stream specification

  /** The admitted samples of one device and metric. */
  function Samples(cfg: Config, events: seq<Event>, mac: string, m: Metric): seq<Sample>
    requires cfg.sampleWindow > 0
    decreases |events|, if m == Temperature then 0 else 1
  {
    if events == [] then []
    else
      var before, e := Samples(cfg, Front(events), mac, m), Last(events);
      if Rejection(e).None? && e.mac == mac then
        var offered := Offered(cfg, e, LastMetric(cfg, Front(events), mac, Temperature), m);
        if offered.Some? then before + [Sample(e.recordTs, offered.value)] else before
      else before
  }

  function Values(samples: seq<Sample>): (r: seq<real>)
    ensures |r| == |samples|
  {
    seq(|samples|, i requires 0 <= i < |samples| => samples[i].value)
  }

  /** The last median: of exactly sampleWindow samples, dated by the newest of them. */
  function LastMetric(cfg: Config, events: seq<Event>, mac: string, m: Metric): Option<Sample>
    requires cfg.sampleWindow > 0
    decreases |events|, 2
  {
    MedianOf(cfg, Samples(cfg, events, mac, m))
  }

  function MedianOf(cfg: Config, samples: seq<Sample>): Option<Sample>
    requires cfg.sampleWindow > 0
  {
    if |samples| < cfg.sampleWindow then None
    else Some(Sample(Last(samples).ts, Median(LastN(Values(samples), cfg.sampleWindow))))
  }

  function Fresh(cfg: Config, last: Option<Sample>, now: int): Option<real> {
    if last.None? || now - last.value.ts > cfg.fieldFreshness then None else Some(last.value.value)
  }

  /** The fields that event e may publish once `events` have been processed. */
  function FieldsOf(cfg: Config, events: seq<Event>, e: Event): map<Metric, real>
    requires cfg.sampleWindow > 0
  {
    map m | m in METRICS && Fresh(cfg, LastMetric(cfg, events, e.mac, m), e.recordTs).Some?
      :: Fresh(cfg, LastMetric(cfg, events, e.mac, m), e.recordTs).value
  }

  predicate OffersNothing(cfg: Config, e: Event, last: Option<Sample>) {
    forall m | m in METRICS :: Offered(cfg, e, last, m).None?
  }

  /** What processing must answer for the last event of a stream. */
  function Verdict(cfg: Config, events: seq<Event>): Outcome
    requires cfg.sampleWindow > 0 && events != []
    decreases |events|, 0
  {
    var e := Last(events);
    if Rejection(e).Some? then Ignored(Rejection(e).value)
    else if TooSoon(cfg, LastUpload(cfg, Front(events), e.mac), e.recordTs) then Ignored(UploadInterval)
    else if FieldsOf(cfg, events, e) == map[] then
      var idle := OffersNothing(cfg, e, LastMetric(cfg, Front(events), e.mac, Temperature));
      Ignored(if idle then NoMetricValues else EmptyReading)
    else Accepted(SensorReading(e.recordTs - e.recordTs % MINUTE, e.mac, FieldsOf(cfg, events, e)))
  }

  predicate TooSoon(cfg: Config, lastUpload: Option<int>, ts: int) {
    lastUpload.Some? && ts - lastUpload.value < cfg.uploadInterval
  }

  function LastUpload(cfg: Config, events: seq<Event>, mac: string): Option<int>
    requires cfg.sampleWindow > 0
    decreases |events|, 1
  {
    if events == [] then None
    else if Last(events).mac == mac && Verdict(cfg, events).Accepted? then Some(Last(events).recordTs)
    else LastUpload(cfg, Front(events), mac)
  }

  // ---------------------------------------------------------------- the processor's state

  function WindowIn(windows: Nested<Metric, seq<real>>, mac: string, m: Metric): seq<real> {
    match Get(windows, mac, m)
    case Some(window) => window
    case None => []
  }

  ghost predicate Tracks(cfg: Config, windows: Nested<Metric, seq<real>>, lastMetrics: Nested<Metric, Sample>,
                         events: seq<Event>)
    requires cfg.sampleWindow > 0
  {
    && (forall mac, m :: WindowIn(windows, mac, m) == LastN(Values(Samples(cfg, events, mac, m)), cfg.sampleWindow))
    && (forall mac, m :: Get(lastMetrics, mac, m) == LastMetric(cfg, events, mac, m))
  }

  ghost predicate TracksUploads(cfg: Config, lastUploads: map<string, int>, events: seq<Event>)
    requires cfg.sampleWindow > 0
  {
    forall mac ::
      LastUpload(cfg, events, mac) == if mac in lastUploads then Some(lastUploads[mac]) else None
  }

  class Processor {
    const cfg: Config
    var windows: Nested<Metric, seq<real>>
    var lastMetrics: Nested<Metric, Sample>
    var lastUploads: map<string, int>
    ghost var events: seq<Event>  // every event processed, oldest first

    ghost predicate Valid()
      reads this
    {
      && cfg.sampleWindow > 0
      && Tracks(cfg, windows, lastMetrics, events)
      && TracksUploads(cfg, lastUploads, events)
    }

    constructor (config: Config)
      requires config.sampleWindow > 0
      ensures Valid() && cfg == config && events == []
    {
      cfg := config;
      windows, lastMetrics, lastUploads, events := map[], map[], map[], [];
    }

    method ProcessEvent(e: Event) returns (outcome: Outcome)
      requires Valid()
      modifies this
      ensures Valid() && events == old(events) + [e]
      ensures outcome == Verdict(cfg, events)
    {
      ghost var past := events;
      events := events + [e];
      UploadsAdvance(cfg, lastUploads, past, e);
      if Rejection(e).Some? {
        Rejected(cfg, windows, lastMetrics, past, e);
        VerdictNext(cfg, past, e);
        return Ignored(Rejection(e).value);
      }
      var values := AddValues(e, past);
      NothingListed(cfg, e, LastMetric(cfg, past, e.mac, Temperature));
      outcome := Answer(e, values, past);
    }

    /** Publishes what is fresh, unless the last upload is too recent. */
    method Answer(e: Event, values: seq<MetricValue>, ghost past: seq<Event>) returns (outcome: Outcome)
      requires cfg.sampleWindow > 0 && Rejection(e).None? && events == past + [e]
      requires Tracks(cfg, windows, lastMetrics, events) && TracksUploads(cfg, lastUploads, past)
      requires values == [] <==> OffersNothing(cfg, e, LastMetric(cfg, past, e.mac, Temperature))
      modifies this`lastUploads
      ensures outcome == Verdict(cfg, events)
      ensures lastUploads == if outcome.Accepted? then old(lastUploads)[e.mac := e.recordTs] else old(lastUploads)
    {
      VerdictNext(cfg, past, e);
      if e.mac in lastUploads && e.recordTs - lastUploads[e.mac] < cfg.uploadInterval {
        return Ignored(UploadInterval);
      }
      var reading := BuildReading(cfg, lastMetrics, e.mac, e.recordTs);
      FieldsMatch(cfg, windows, lastMetrics, events, e);
      if reading.fields == map[] {
        return Ignored(if |values| == 0 then NoMetricValues else EmptyReading);
      }
      lastUploads := lastUploads[e.mac := e.recordTs];
      return Accepted(reading);
    }

    /** Feeds what the event offers into the windows. */
    method AddValues(e: Event, ghost past: seq<Event>) returns (values: seq<MetricValue>)
      requires cfg.sampleWindow > 0 && Rejection(e).None?
      requires Tracks(cfg, windows, lastMetrics, past)
      modifies this`windows, this`lastMetrics
      ensures Tracks(cfg, windows, lastMetrics, past + [e])
      ensures values == Listed(Offers(cfg, e, LastMetric(cfg, past, e.mac, Temperature)), ORDER, |ORDER|)
    {
      ghost var last := Get(lastMetrics, e.mac, Temperature);
      values := ExtractValues(e);
      forall i | 0 <= i < |values| ensures Pick(values[..i], values[i].metric).None? {
        ListedOnce(Offers(cfg, e, last), ORDER, |ORDER|, i);
      }
      AddAll(e, values);
      Advanced(cfg, old(windows), old(lastMetrics), windows, lastMetrics, past, e);
    }

    method AddAll(e: Event, values: seq<MetricValue>)
      requires cfg.sampleWindow > 0
      requires forall i :: 0 <= i < |values| ==> Pick(values[..i], values[i].metric).None?
      modifies this`windows, this`lastMetrics
      ensures Applied(cfg, old(windows), old(lastMetrics), windows, lastMetrics, e, values)
    {
      AppliedNothing(cfg, windows, lastMetrics, e);
      for i := 0 to |values|
        invariant Applied(cfg, old(windows), old(lastMetrics), windows, lastMetrics, e, values[..i])
      {
        ghost var w, l := windows, lastMetrics;
        AddValue(e.mac, values[i].metric, values[i].value, e.recordTs);
        AppliedStep(cfg, old(windows), old(lastMetrics), w, l, windows, lastMetrics, e, values[..i], values[i]);
        assert values[..i] + [values[i]] == values[..i + 1];
      }
      assert values[..|values|] == values;
    }

    method ExtractValues(e: Event) returns (values: seq<MetricValue>)
      ensures values == Listed(Offers(cfg, e, Get(lastMetrics, e.mac, Temperature)), ORDER, |ORDER|)
    {
      var last := Get(lastMetrics, e.mac, Temperature);
      ghost var offers := Offers(cfg, e, last);
      var temperatureInvalid := false;
      values := [];
      if e.temperature.Some? && e.temperature.value != 0.0 {
        if ValidTemperature(e.temperature.value) && ValidStep(last, e.temperature.value) {
          values := values + [MetricValue(Temperature, e.temperature.value)];
        } else {
          temperatureInvalid := true;
        }
      }
      assert values == Listed(offers, ORDER, 1);
      if e.humidity.Some? && ValidHumidity(e.humidity.value, temperatureInvalid) {
        values := values + [MetricValue(Humidity, e.humidity.value)];
      }
      assert values == Listed(offers, ORDER, 2);
      if e.pressure.Some? && e.pressure.value != 0.0 {
        values := values + [MetricValue(Pressure, e.pressure.value)];
      }
      assert values == Listed(offers, ORDER, 3);
      if e.co2.Some? {
        values := values + [MetricValue(CO2, e.co2.value)];
      }
      assert values == Listed(offers, ORDER, 4);
      if e.illuminance.Some? && e.illuminance.value.unit == "LUX" && e.illuminance.value.value != 65535.0 {
        values := values + [MetricValue(Lux, e.illuminance.value.value)];
      }
      assert values == Listed(offers, ORDER, 5);
      if e.battery.Some? && AcceptBattery(cfg, e.mac) {
        values := values + [MetricValue(Battery, e.battery.value)];
      }
      assert values == Listed(offers, ORDER, 6);
      if e.tvocPpb.Some? {
        values := values + [MetricValue(ETVOC, e.tvocPpb.value / 1000.0)];
      }
    }

    method AddValue(mac: string, name: Metric, value: real, ts: int)
      requires cfg.sampleWindow > 0
      modifies this`windows, this`lastMetrics
      ensures Added(cfg, old(windows), old(lastMetrics), windows, lastMetrics, mac, MetricValue(name, value), ts)
    {
      var values := WindowIn(windows, mac, name) + [value];
      if |values| > cfg.sampleWindow {
        values := values[|values| - cfg.sampleWindow..];
      }
      windows := Put(windows, mac, name, values);
      if |values| < cfg.sampleWindow {
        return;
      }
      var median := ComputeMedian(values);
      lastMetrics := Put(lastMetrics, mac, name, Sample(ts, median));
    }
  }

  /** The order in which `extractValues` appends. */
  const ORDER: seq<Metric> := [Temperature, Humidity, Pressure, CO2, Lux, Battery, ETVOC]

  function Offers(cfg: Config, e: Event, last: Option<Sample>): map<Metric, real> {
    map m | m in METRICS && Offered(cfg, e, last, m).Some? :: Offered(cfg, e, last, m).value
  }

  /** What the first n metrics of an order contribute. */
  function Listed(offers: map<Metric, real>, order: seq<Metric>, n: nat): seq<MetricValue>
    requires n <= |order|
  {
    if n == 0 then []
    else
      var m := order[n - 1];
      Listed(offers, order, n - 1) + if m in offers then [MetricValue(m, offers[m])] else []
  }

  function Pick(values: seq<MetricValue>, m: Metric): Option<real> {
    if values == [] then None
    else if Last(values).metric == m then Some(Last(values).value)
    else Pick(Front(values), m)
  }

  ghost predicate Applied(cfg: Config, w0: Nested<Metric, seq<real>>, l0: Nested<Metric, Sample>,
                          w: Nested<Metric, seq<real>>, l: Nested<Metric, Sample>, e: Event, values: seq<MetricValue>)
    requires cfg.sampleWindow > 0
  {
    && (forall mac, m :: WindowIn(w, mac, m) == WindowAfter(cfg, w0, e, values, mac, m))
    && (forall mac, m :: Get(l, mac, m) == MedianAfter(cfg, l0, e, values, WindowIn(w, mac, m), mac, m))
  }

  function WindowAfter(cfg: Config, w0: Nested<Metric, seq<real>>, e: Event, values: seq<MetricValue>, mac: string,
                       m: Metric): seq<real> {
    if mac == e.mac then Extend(cfg, WindowIn(w0, mac, m), Pick(values, m)) else WindowIn(w0, mac, m)
  }

  function MedianAfter(cfg: Config, l0: Nested<Metric, Sample>, e: Event, values: seq<MetricValue>,
                       window: seq<real>, mac: string, m: Metric): Option<Sample>
    requires cfg.sampleWindow > 0
  {
    if mac == e.mac && Pick(values, m).Some? && |window| == cfg.sampleWindow then
      Some(Sample(e.recordTs, Median(window)))
    else Get(l0, mac, m)
  }

  /** What adding one value does to the windows and the last medians. */
  ghost predicate Added(cfg: Config, w: Nested<Metric, seq<real>>, l: Nested<Metric, Sample>,
                        w': Nested<Metric, seq<real>>, l': Nested<Metric, Sample>, mac: string, v: MetricValue, ts: int)
    requires cfg.sampleWindow > 0
  {
    var window := LastN(WindowIn(w, mac, v.metric) + [v.value], cfg.sampleWindow);
    && w' == Put(w, mac, v.metric, window)
    && l' == if |window| < cfg.sampleWindow then l else Put(l, mac, v.metric, Sample(ts, Median(window)))
  }

  function Extend(cfg: Config, window: seq<real>, value: Option<real>): seq<real> {
    if value.None? then window else LastN(window + [value.value], cfg.sampleWindow)
  }

  lemma {:induction false} Rejected(cfg: Config, windows: Nested<Metric, seq<real>>,
                                    lastMetrics: Nested<Metric, Sample>, events: seq<Event>, e: Event)
    requires cfg.sampleWindow > 0 && Rejection(e).Some?
    requires Tracks(cfg, windows, lastMetrics, events)
    ensures Tracks(cfg, windows, lastMetrics, events + [e])
  {
  }

  function BuildReading(cfg: Config, lastMetrics: Nested<Metric, Sample>, mac: string, ts: int): SensorReading {
    SensorReading(ts - ts % MINUTE, mac,
      map m | m in METRICS && Fresh(cfg, Get(lastMetrics, mac, m), ts).Some?
        :: Fresh(cfg, Get(lastMetrics, mac, m), ts).value)
  }

  lemma {:induction false} FieldsMatch(cfg: Config, windows: Nested<Metric, seq<real>>,
                                       lastMetrics: Nested<Metric, Sample>, events: seq<Event>, e: Event)
    requires cfg.sampleWindow > 0 && Tracks(cfg, windows, lastMetrics, events)
    ensures BuildReading(cfg, lastMetrics, e.mac, e.recordTs).fields == FieldsOf(cfg, events, e)
  {
  }

  lemma {:induction false} VerdictNext(cfg: Config, past: seq<Event>, e: Event)
    requires cfg.sampleWindow > 0
    ensures var fields := FieldsOf(cfg, past + [e], e);
      Verdict(cfg, past + [e]) ==
        if Rejection(e).Some? then Ignored(Rejection(e).value)
        else if TooSoon(cfg, LastUpload(cfg, past, e.mac), e.recordTs) then Ignored(UploadInterval)
        else if fields == map[] then
          var idle := OffersNothing(cfg, e, LastMetric(cfg, past, e.mac, Temperature));
          Ignored(if idle then NoMetricValues else EmptyReading)
        else Accepted(SensorReading(e.recordTs - e.recordTs % MINUTE, e.mac, fields))
  {
    assert Front(past + [e]) == past && Last(past + [e]) == e;
  }

  lemma {:induction false} UploadsAdvance(cfg: Config, uploads: map<string, int>, past: seq<Event>, e: Event)
    requires cfg.sampleWindow > 0 && TracksUploads(cfg, uploads, past)
    ensures
      var next := if Verdict(cfg, past + [e]).Accepted? then uploads[e.mac := e.recordTs] else uploads;
      TracksUploads(cfg, next, past + [e])
  {
  }

  lemma {:induction false} AppliedNothing(cfg: Config, w: Nested<Metric, seq<real>>, l: Nested<Metric, Sample>,
                                          e: Event)
    requires cfg.sampleWindow > 0
    ensures Applied(cfg, w, l, w, l, e, [])
  {
  }

  lemma {:induction false} AppliedStep(cfg: Config, w0: Nested<Metric, seq<real>>, l0: Nested<Metric, Sample>,
                                       w: Nested<Metric, seq<real>>, l: Nested<Metric, Sample>,
                                       w': Nested<Metric, seq<real>>, l': Nested<Metric, Sample>, e: Event,
                                       values: seq<MetricValue>, v: MetricValue)
    requires cfg.sampleWindow > 0 && Applied(cfg, w0, l0, w, l, e, values) && Pick(values, v.metric).None?
    requires Added(cfg, w, l, w', l', e.mac, v, e.recordTs)
    ensures Applied(cfg, w0, l0, w', l', e, values + [v])
  {
    forall mac, m
      ensures WindowIn(w', mac, m) == WindowAfter(cfg, w0, e, values + [v], mac, m)
      ensures Get(l', mac, m) == MedianAfter(cfg, l0, e, values + [v], WindowIn(w', mac, m), mac, m)
    {
      AppliedStepAt(cfg, w0, l0, w, l, w', l', e, values, v, mac, m);
    }
  }

  lemma {:induction false} AppliedStepAt(cfg: Config, w0: Nested<Metric, seq<real>>, l0: Nested<Metric, Sample>,
                                         w: Nested<Metric, seq<real>>, l: Nested<Metric, Sample>,
                                         w': Nested<Metric, seq<real>>, l': Nested<Metric, Sample>, e: Event,
                                         values: seq<MetricValue>, v: MetricValue, mac: string, m: Metric)
    requires cfg.sampleWindow > 0 && Applied(cfg, w0, l0, w, l, e, values) && Pick(values, v.metric).None?
    requires Added(cfg, w, l, w', l', e.mac, v, e.recordTs)
    ensures WindowIn(w', mac, m) == WindowAfter(cfg, w0, e, values + [v], mac, m)
    ensures Get(l', mac, m) == MedianAfter(cfg, l0, e, values + [v], WindowIn(w', mac, m), mac, m)
  {
    PickAppended(values, v, m);
    var before := WindowIn(w, mac, m);
    assert before == WindowAfter(cfg, w0, e, values, mac, m);
    assert Get(l, mac, m) == MedianAfter(cfg, l0, e, values, before, mac, m);
    if mac != e.mac || m != v.metric {
      assert Get(w', mac, m) == Get(w, mac, m) && Get(l', mac, m) == Get(l, mac, m);
    } else {
      assert before == WindowIn(w0, mac, m);
    }
  }

  /** Each metric of the order is listed with the value offered for it. */
  lemma {:induction false} ListedValues(offers: map<Metric, real>, order: seq<Metric>, n: nat, m: Metric)
    requires n <= |order|
    ensures Pick(Listed(offers, order, n), m) == if m in order[..n] && m in offers then Some(offers[m]) else None
  {
    if n == 0 {
    } else {
      var before, next := Listed(offers, order, n - 1), order[n - 1];
      ListedValues(offers, order, n - 1, m);
      assert order[..n] == order[..n - 1] + [next];
      if next in offers {
        PickAppended(before, MetricValue(next, offers[next]), m);
      } else {
        assert Listed(offers, order, n) == before;
      }
    }
  }

  lemma {:induction false} PickAppended(values: seq<MetricValue>, v: MetricValue, m: Metric)
    ensures Pick(values + [v], m) == if m == v.metric then Some(v.value) else Pick(values, m)
  {
  }

  /** An order without repetitions lists no metric twice. */
  lemma {:induction false} ListedOnce(offers: map<Metric, real>, order: seq<Metric>, n: nat, i: nat)
    requires n <= |order| && i < |Listed(offers, order, n)|
    requires forall j, k :: 0 <= j < k < |order| ==> order[j] != order[k]
    ensures Pick(Listed(offers, order, n)[..i], Listed(offers, order, n)[i].metric).None?
  {
    var before, listed := Listed(offers, order, n - 1), Listed(offers, order, n);
    if i < |before| {
      ListedOnce(offers, order, n - 1, i);
      assert listed[..i] == before[..i] && listed[i] == before[i];
    } else {
      ListedValues(offers, order, n - 1, order[n - 1]);
      assert listed[..i] == before;
    }
  }

  lemma {:induction false} OrderIsComplete(m: Metric)
    ensures m in ORDER[..|ORDER|] && m in METRICS
  {
    assert ORDER[0] == Temperature && ORDER[1] == Humidity && ORDER[2] == Pressure && ORDER[3] == CO2;
    assert ORDER[4] == Lux && ORDER[5] == Battery && ORDER[6] == ETVOC;
  }

  lemma {:induction false} NothingListed(cfg: Config, e: Event, last: Option<Sample>)
    ensures Listed(Offers(cfg, e, last), ORDER, |ORDER|) == [] <==> OffersNothing(cfg, e, last)
  {
    var values := Listed(Offers(cfg, e, last), ORDER, |ORDER|);
    forall m ensures Pick(values, m) == Offered(cfg, e, last, m) {
      ListedValues(Offers(cfg, e, last), ORDER, |ORDER|, m);
      OrderIsComplete(m);
    }
    if values != [] {
      assert Pick(values, Last(values).metric).Some?;
      assert Last(values).metric in METRICS;
    }
  }

  /** Adding everything an event offers moves the state from one stream to the next. */
  lemma {:induction false} Advanced(cfg: Config, w0: Nested<Metric, seq<real>>, l0: Nested<Metric, Sample>,
                                    w: Nested<Metric, seq<real>>, l: Nested<Metric, Sample>, events: seq<Event>,
                                    e: Event)
    requires cfg.sampleWindow > 0 && Rejection(e).None? && Tracks(cfg, w0, l0, events)
    requires Applied(cfg, w0, l0, w, l, e, Listed(Offers(cfg, e, Get(l0, e.mac, Temperature)), ORDER, |ORDER|))
    ensures Tracks(cfg, w, l, events + [e])
  {
    forall mac, m
      ensures WindowIn(w, mac, m) == LastN(Values(Samples(cfg, events + [e], mac, m)), cfg.sampleWindow)
      ensures Get(l, mac, m) == LastMetric(cfg, events + [e], mac, m)
    {
      var last := Get(l0, e.mac, Temperature);
      ListedValues(Offers(cfg, e, last), ORDER, |ORDER|, m);
      OrderIsComplete(m);
      AdvancedAt(cfg, w0, l0, w, l, events, e, Listed(Offers(cfg, e, last), ORDER, |ORDER|), mac, m);
    }
  }

  lemma {:induction false} SamplesNext(cfg: Config, events: seq<Event>, e: Event, mac: string, m: Metric)
    requires cfg.sampleWindow > 0 && Rejection(e).None?
    ensures var offered := Offered(cfg, e, LastMetric(cfg, events, mac, Temperature), m);
      Samples(cfg, events + [e], mac, m)
      == Samples(cfg, events, mac, m) + if mac == e.mac && offered.Some? then [Sample(e.recordTs, offered.value)]
        else []
  {
  }

  lemma {:induction false} AdvancedAt(cfg: Config, w0: Nested<Metric, seq<real>>, l0: Nested<Metric, Sample>,
                                      w: Nested<Metric, seq<real>>, l: Nested<Metric, Sample>, events: seq<Event>,
                                      e: Event, values: seq<MetricValue>, mac: string, m: Metric)
    requires cfg.sampleWindow > 0 && Rejection(e).None? && Tracks(cfg, w0, l0, events)
    requires Applied(cfg, w0, l0, w, l, e, values)
    requires Pick(values, m) == Offered(cfg, e, Get(l0, e.mac, Temperature), m)
    ensures WindowIn(w, mac, m) == LastN(Values(Samples(cfg, events + [e], mac, m)), cfg.sampleWindow)
    ensures Get(l, mac, m) == LastMetric(cfg, events + [e], mac, m)
  {
    var samples := Samples(cfg, events, mac, m);
    SamplesNext(cfg, events, e, mac, m);
    assert WindowIn(w0, mac, m) == LastN(Values(samples), cfg.sampleWindow);
    assert Get(l0, mac, m) == MedianOf(cfg, samples);
    assert Get(l0, e.mac, Temperature) == LastMetric(cfg, events, e.mac, Temperature);
    if mac == e.mac && Pick(values, m).Some? {
      SampleAdvances(cfg, samples, Sample(e.recordTs, Pick(values, m).value), WindowIn(w, mac, m));
    } else {
      assert samples + [] == samples;
    }
  }

  /** A window that takes one more sample, and the median that is recorded once it is full. */
  lemma {:induction false} SampleAdvances(cfg: Config, samples: seq<Sample>, s: Sample, window: seq<real>)
    requires cfg.sampleWindow > 0
    requires window == LastN(LastN(Values(samples), cfg.sampleWindow) + [s.value], cfg.sampleWindow)
    ensures window == LastN(Values(samples + [s]), cfg.sampleWindow)
    ensures MedianOf(cfg, samples + [s])
      == if |window| == cfg.sampleWindow then Some(Sample(s.ts, Median(window))) else MedianOf(cfg, samples)
  {
    SampleJoins(samples, s, cfg.sampleWindow);
    assert Last(samples + [s]) == s;
  }

  lemma {:induction false} SampleJoins(samples: seq<Sample>, s: Sample, n: nat)
    requires n > 0
    ensures LastN(LastN(Values(samples), n) + [s.value], n) == LastN(Values(samples + [s]), n)
  {
    assert Values(samples + [s]) == Values(samples) + [s.value];
  }

  // ---------------------------------------------------------------- what the stream keeps

  /** Only plausible temperatures are ever admitted. */
  lemma {:induction false} AdmittedInRange(cfg: Config, events: seq<Event>, mac: string)
    requires cfg.sampleWindow > 0
    ensures forall s :: s in Samples(cfg, events, mac, Temperature) ==> ValidTemperature(s.value)
  {
    if events == [] {
    } else {
      AdmittedInRange(cfg, Front(events), mac);
    }
  }

  lemma {:induction false} MedianInRange(cfg: Config, events: seq<Event>, mac: string)
    requires cfg.sampleWindow > 0 && LastMetric(cfg, events, mac, Temperature).Some?
    ensures ValidTemperature(LastMetric(cfg, events, mac, Temperature).value.value)
  {
    var samples := Samples(cfg, events, mac, Temperature);
    AdmittedInRange(cfg, events, mac);
    var window := LastN(Values(samples), cfg.sampleWindow);
    forall v | v in window ensures -20.0 <= v <= 60.0 {
      assert v in Values(samples);
      var i :| 0 <= i < |samples| && samples[i].value == v;
      assert samples[i] in samples;
    }
    MedianWithin(window, -20.0, 60.0);
  }

  /** No event lowers a device's temperature median by more than 3 degrees. */
  ghost predicate FallIsBounded(cfg: Config, events: seq<Event>, mac: string)
    requires cfg.sampleWindow > 0 && events != []
  {
    var before, after := LastMetric(cfg, Front(events), mac, Temperature), LastMetric(cfg, events, mac, Temperature);
    before.Some? ==> after.Some? && after.value.value >= before.value.value - 3.0
  }

  lemma {:induction false} OddWindowBoundsFall(cfg: Config, events: seq<Event>, mac: string)
    requires cfg.sampleWindow % 2 == 1 && events != []
    ensures FallIsBounded(cfg, events, mac)
  {
    var past, n := Front(events), cfg.sampleWindow;
    var before, after := Samples(cfg, past, mac, Temperature), Samples(cfg, events, mac, Temperature);
    if LastMetric(cfg, past, mac, Temperature).Some? && after != before {
      var window, x := LastN(Values(before), n), Last(after).value;
      assert Values(after) == Values(before) + [x];
      assert LastN(Values(after), n) == window[1..] + [x];
      SlideBoundsMedian(window, x);
    }
  }

  /** An event that reports nothing but a temperature. */
  function TemperatureEvent(ts: int, mac: string, value: real): Event {
    Event("IOT_TELEMETRY", ts, mac, "", Some(value), None, None, None, None, None, None)
  }

  /** n/2 readings of 60, then n/2 of -20. */
  function Cliff(n: nat, mac: string, k: nat): seq<Event> {
    seq(k, i => TemperatureEvent(i + 1, mac, if i < n / 2 then 60.0 else -20.0))
  }

  function CliffValues(n: nat, k: nat): seq<real> {
    seq(k, i => if i < n / 2 then 60.0 else -20.0)
  }

  lemma {:induction false} CliffIsAdmitted(cfg: Config, mac: string, k: nat)
    requires 0 < cfg.sampleWindow && k <= cfg.sampleWindow && mac != ""
    ensures Values(Samples(cfg, Cliff(cfg.sampleWindow, mac, k), mac, Temperature)) == CliffValues(cfg.sampleWindow, k)
  {
    var n := cfg.sampleWindow;
    if k == 0 {
    } else {
      CliffIsAdmitted(cfg, mac, k - 1);
      var past, e := Cliff(n, mac, k - 1), TemperatureEvent(k, mac, if k - 1 < n / 2 then 60.0 else -20.0);
      assert Cliff(n, mac, k) == past + [e];
      assert |Samples(cfg, past, mac, Temperature)| == k - 1;
      assert LastMetric(cfg, past, mac, Temperature).None?;
      SamplesNext(cfg, past, e, mac, Temperature);
      var before := Samples(cfg, past, mac, Temperature);
      assert Values(before + [Sample(k, e.temperature.value)]) == Values(before) + [e.temperature.value];
    }
  }

  /** With an even window the median averages two samples, and can drop from 20 to -1.5 at once. */
  lemma {:induction false} EvenWindowLetsItFall(cfg: Config, mac: string) returns (events: seq<Event>)
    requires cfg.sampleWindow > 0 && cfg.sampleWindow % 2 == 0 && mac != ""
    ensures events != [] && !FallIsBounded(cfg, events, mac)
  {
    var n, half := cfg.sampleWindow, cfg.sampleWindow / 2;
    var past, e := Cliff(n, mac, n), TemperatureEvent(n + 1, mac, 17.0);
    events := past + [e];
    assert Front(events) == past;
    CliffIsAdmitted(cfg, mac, n);
    var before, window := Samples(cfg, past, mac, Temperature), CliffValues(n, n);
    CliffMedian(window, half);
    assert LastMetric(cfg, past, mac, Temperature) == Some(Sample(Last(before).ts, 20.0));
    SamplesNext(cfg, past, e, mac, Temperature);
    var after := before + [Sample(n + 1, 17.0)];
    assert Samples(cfg, events, mac, Temperature) == after;
    assert LastN(Values(after), n) == window[1..] + [17.0];
    SlidCliffMedian(window, half);
  }

  lemma {:induction false} CliffMedian(window: seq<real>, half: nat)
    requires half > 0 && window == CliffValues(2 * half, 2 * half)
    ensures Median(window) == 20.0
  {
    CountStretch(window, half, 2 * half, AtMost(-20.0));
    CountStretch(window, 0, 2 * half, AtMost(60.0));
    CountStretch(window, 0, half, AtLeast(60.0));
    CountStretch(window, 0, 2 * half, AtLeast(-20.0));
    EvenMedianAtMost(window, -20.0, 60.0);
    EvenMedianAtLeast(window, -20.0, 60.0);
  }

  lemma {:induction false} SlidCliffMedian(window: seq<real>, half: nat)
    requires half > 0 && window == CliffValues(2 * half, 2 * half)
    ensures Median(window[1..] + [17.0]) <= -1.5
  {
    var slid := window[1..] + [17.0];
    assert forall i :: half - 1 <= i < 2 * half - 1 ==> slid[i] == window[i + 1] == -20.0;
    CountStretch(slid, half - 1, 2 * half - 1, AtMost(-20.0));
    CountStretch(slid, half - 1, 2 * half, AtMost(17.0));
    EvenMedianAtMost(slid, -20.0, 17.0);
  }

  /** The step filter keeps its promise on every stream exactly when the window is odd. */
  lemma {:induction false} FallIsBoundedIffOdd(cfg: Config)
    requires cfg.sampleWindow > 0
    ensures (forall events, mac :: events != [] ==> FallIsBounded(cfg, events, mac)) <==> cfg.sampleWindow % 2 == 1
  {
    if cfg.sampleWindow % 2 == 1 {
      forall events, mac | events != [] ensures FallIsBounded(cfg, events, mac) {
        OddWindowBoundsFall(cfg, events, mac);
      }
    } else {
      var events := EvenWindowLetsItFall(cfg, "02:00:00:00:00:01");
    }
  }

  ghost predicate Uploaded(cfg: Config, events: seq<Event>, i: nat, mac: string)
    requires cfg.sampleWindow > 0 && i < |events|
  {
    events[i].mac == mac && Verdict(cfg, events[..i + 1]).Accepted?
  }

  lemma {:induction false} LastUploadIsLatest(cfg: Config, events: seq<Event>, i: nat, mac: string)
    requires cfg.sampleWindow > 0 && cfg.uploadInterval >= 0 && i < |events| && Uploaded(cfg, events, i, mac)
    ensures LastUpload(cfg, events, mac).Some?
    ensures LastUpload(cfg, events, mac).value >= events[i].recordTs
  {
    if i == |events| - 1 {
      assert events[..i + 1] == events;
    } else {
      var past := Front(events);
      assert past[..i + 1] == events[..i + 1];
      LastUploadIsLatest(cfg, past, i, mac);
    }
  }

  lemma {:induction false} AcceptedIsNotTooSoon(cfg: Config, past: seq<Event>, e: Event)
    requires cfg.sampleWindow > 0 && Verdict(cfg, past + [e]).Accepted?
    ensures !TooSoon(cfg, LastUpload(cfg, past, e.mac), e.recordTs)
  {
  }

  /** Accepted readings of one device are spaced out, in whatever order events arrive. */
  lemma {:induction false} UploadsAreApart(cfg: Config, past: seq<Event>, i: nat, e: Event)
    requires cfg.sampleWindow > 0 && i < |past| && cfg.uploadInterval >= 0
    ensures Uploaded(cfg, past, i, e.mac) && Verdict(cfg, past + [e]).Accepted? ==>
      e.recordTs - past[i].recordTs >= cfg.uploadInterval
  {
    if Uploaded(cfg, past, i, e.mac) && Verdict(cfg, past + [e]).Accepted? {
      LastUploadIsLatest(cfg, past, i, e.mac);
      AcceptedIsNotTooSoon(cfg, past, e);
    }
  }

  lemma {:induction false} FieldIsFreshMedian(cfg: Config, samples: seq<Sample>, now: int, field: Option<real>)
    requires cfg.sampleWindow > 0 && field == Fresh(cfg, MedianOf(cfg, samples), now)
    ensures field.Some? <==> |samples| >= cfg.sampleWindow && now - Last(samples).ts <= cfg.fieldFreshness
    ensures field.Some? ==> field.value == Median(Values(samples)[|samples| - cfg.sampleWindow..])
  {
    if |samples| == cfg.sampleWindow {
      assert Values(samples)[0..] == Values(samples);
    }
  }

  lemma {:induction false} FieldIsFresh(cfg: Config, events: seq<Event>, e: Event, m: Metric)
    requires cfg.sampleWindow > 0
    ensures var field := Fresh(cfg, MedianOf(cfg, Samples(cfg, events, e.mac, m)), e.recordTs);
      (m in FieldsOf(cfg, events, e) <==> field.Some?) && (field.Some? ==> FieldsOf(cfg, events, e)[m] == field.value)
  {
    OrderIsComplete(m);
  }

  /** Whatever is published is the median of a full window whose newest sample is fresh. */
  lemma {:induction false} PublishedIsFreshMedian(cfg: Config, events: seq<Event>, m: Metric)
    requires cfg.sampleWindow > 0 && events != [] && Verdict(cfg, events).Accepted?
    ensures var fields, samples, n := Verdict(cfg, events).reading.fields, Samples(cfg, events, Last(events).mac, m),
        cfg.sampleWindow;
      && (m in fields <==> |samples| >= n && Last(events).recordTs - Last(samples).ts <= cfg.fieldFreshness)
      && (m in fields ==> fields[m] == Median(Values(samples)[|samples| - n..]))
  {
    var e, samples := Last(events), Samples(cfg, events, Last(events).mac, m);
    FieldIsFresh(cfg, events, e, m);
    FieldIsFreshMedian(cfg, samples, e.recordTs, Fresh(cfg, MedianOf(cfg, samples), e.recordTs));
  }
}
