/**
 What the Cisco Spaces processor must let through
 (cmd/hm-cisco-spaces-collector/processor.go): which events count, which of their
 values are admitted, and which events are answered with a reading.
 */
module SpacesAdmission {
  import opened OrderStatistics
  import opened Sequences
  import opened SpacesProcessor
  import opened Wrappers

  /** A telemetry event of a known device, dated, that no other device claims. */
  predicate IsValid(e: Event) {
    e.eventType == "IOT_TELEMETRY" && e.recordTs > 0 && e.mac != "" && (e.deviceId == "" || e.deviceId == e.mac)
  }

  lemma {:induction false} RejectedIff(e: Event)
    ensures Rejection(e).None? <==> IsValid(e)
    ensures Rejection(e) == Some(NonIotTelemetryEvent) <==> e.eventType != "IOT_TELEMETRY"
    ensures Rejection(e) == Some(MissingRecordTs) <==> e.eventType == "IOT_TELEMETRY" && e.recordTs <= 0
    ensures Rejection(e) == Some(MissingDeviceMac)
      <==> e.eventType == "IOT_TELEMETRY" && e.recordTs > 0 && e.mac == ""
  {
  }

  // ---------------------------------------------------------------- which values are admitted

  /** The value that the last event adds to a device's samples of a metric, if it adds one. */
  ghost predicate Adds(cfg: Config, events: seq<Event>, e: Event, m: Metric, v: real)
    requires cfg.sampleWindow > 0
  {
    Samples(cfg, events + [e], e.mac, m) == Samples(cfg, events, e.mac, m) + [Sample(e.recordTs, v)]
  }

  ghost predicate AddsNothing(cfg: Config, events: seq<Event>, e: Event, m: Metric)
    requires cfg.sampleWindow > 0
  {
    Samples(cfg, events + [e], e.mac, m) == Samples(cfg, events, e.mac, m)
  }

  lemma {:induction false} AddsOffered(cfg: Config, events: seq<Event>, e: Event, m: Metric)
    requires cfg.sampleWindow > 0 && IsValid(e)
    ensures var offered := Offered(cfg, e, LastMetric(cfg, events, e.mac, Temperature), m);
      && (forall v :: Adds(cfg, events, e, m, v) <==> offered == Some(v))
      && (AddsNothing(cfg, events, e, m) <==> offered == None)
  {
    var before := Samples(cfg, events, e.mac, m);
    var offered := Offered(cfg, e, LastMetric(cfg, events, e.mac, Temperature), m);
    SamplesNext(cfg, events, e, e.mac, m);
    if offered == None {
      assert before + [] == before;
    } else {
      assert Last(before + [Sample(e.recordTs, offered.value)]) == Sample(e.recordTs, offered.value);
    }
    forall v ensures Adds(cfg, events, e, m, v) <==> offered == Some(v) {
      assert Last(before + [Sample(e.recordTs, v)]) == Sample(e.recordTs, v);
    }
  }

  /** A temperature between -20 and 60 that is not 0 and not more than 3 below the last median. */
  ghost predicate PlausibleTemperature(cfg: Config, events: seq<Event>, e: Event)
    requires cfg.sampleWindow > 0
  {
    var samples, n := Samples(cfg, events, e.mac, Temperature), cfg.sampleWindow;
    && e.temperature.Some? && e.temperature.value != 0.0 && -20.0 <= e.temperature.value <= 60.0
    && (|samples| >= n ==> e.temperature.value >= Median(LastN(Values(samples), n)) - 3.0)
  }

  lemma {:induction false} TemperatureIsAdmittedIff(cfg: Config, events: seq<Event>, e: Event)
    requires cfg.sampleWindow > 0 && IsValid(e)
    ensures !AddsNothing(cfg, events, e, Temperature) <==> PlausibleTemperature(cfg, events, e)
    ensures PlausibleTemperature(cfg, events, e) ==> Adds(cfg, events, e, Temperature, e.temperature.value)
  {
    AddsOffered(cfg, events, e, Temperature);
  }

  /** A humidity between 0 and 100, unless it is the 99 that comes with an implausible temperature. */
  lemma {:induction false} HumidityIsAdmittedIff(cfg: Config, events: seq<Event>, e: Event)
    requires cfg.sampleWindow > 0 && IsValid(e)
    ensures var implausible :=
      e.temperature.Some? && e.temperature.value != 0.0 && !PlausibleTemperature(cfg, events, e);
      var plausible := e.humidity.Some? && 0.0 <= e.humidity.value <= 100.0
                       && !(implausible && e.humidity.value == 99.0);
      && (!AddsNothing(cfg, events, e, Humidity) <==> plausible)
      && (plausible ==> Adds(cfg, events, e, Humidity, e.humidity.value))
  {
    AddsOffered(cfg, events, e, Humidity);
  }

  lemma {:induction false} OthersAreAdmittedIff(cfg: Config, events: seq<Event>, e: Event)
    requires cfg.sampleWindow > 0 && IsValid(e)
    ensures forall v :: Adds(cfg, events, e, Pressure, v) <==> v != 0.0 && e.pressure == Some(v)
    ensures forall v :: Adds(cfg, events, e, CO2, v) <==> e.co2 == Some(v)
    ensures forall v :: Adds(cfg, events, e, Lux, v) <==> v != 65535.0 && e.illuminance == Some(Illuminance(v, "LUX"))
    ensures forall v :: Adds(cfg, events, e, ETVOC, v) <==> e.tvocPpb.Some? && e.tvocPpb.value == 1000.0 * v
    ensures forall v :: Adds(cfg, events, e, Battery, v) <==>
      (e.battery == Some(v) && (cfg.batteryMode == All
                                || (cfg.batteryMode == Allowlist && e.mac in cfg.batteryAllowlist)))
  {
    AddsOffered(cfg, events, e, Pressure);
    AddsOffered(cfg, events, e, CO2);
    AddsOffered(cfg, events, e, Lux);
    AddsOffered(cfg, events, e, ETVOC);
    AddsOffered(cfg, events, e, Battery);
  }

  /** An event changes no samples but its own device's, and an invalid one none at all. */
  lemma {:induction false} OtherDevicesKeepTheirs(cfg: Config, events: seq<Event>, e: Event, mac: string, m: Metric)
    requires cfg.sampleWindow > 0 && (mac != e.mac || !IsValid(e))
    ensures Samples(cfg, events + [e], mac, m) == Samples(cfg, events, mac, m)
  {
    RejectedIff(e);
    assert Front(events + [e]) == events;
  }

  // ---------------------------------------------------------------- which events are answered

  /** The last upload is that of some accepted event. */
  lemma {:induction false} LastUploadHappened(cfg: Config, events: seq<Event>, mac: string) returns (i: nat)
    requires cfg.sampleWindow > 0 && LastUpload(cfg, events, mac).Some?
    ensures i < |events| && Uploaded(cfg, events, i, mac) && events[i].recordTs == LastUpload(cfg, events, mac).value
  {
    if Last(events).mac == mac && Verdict(cfg, events).Accepted? {
      i := |events| - 1;
      assert events[..i + 1] == events;
    } else {
      i := LastUploadHappened(cfg, Front(events), mac);
      assert Front(events)[..i + 1] == events[..i + 1];
    }
  }

  /** Every earlier upload of the device lies at least the interval back. */
  ghost predicate UploadIsDue(cfg: Config, past: seq<Event>, e: Event)
    requires cfg.sampleWindow > 0
  {
    forall i :: 0 <= i < |past| && Uploaded(cfg, past, i, e.mac) ==>
      e.recordTs - past[i].recordTs >= cfg.uploadInterval
  }

  lemma {:induction false} DueIffNotTooSoon(cfg: Config, past: seq<Event>, e: Event)
    requires cfg.sampleWindow > 0 && cfg.uploadInterval >= 0
    ensures UploadIsDue(cfg, past, e) <==> !TooSoon(cfg, LastUpload(cfg, past, e.mac), e.recordTs)
  {
    forall i | 0 <= i < |past| && Uploaded(cfg, past, i, e.mac)
      ensures LastUpload(cfg, past, e.mac).Some? && LastUpload(cfg, past, e.mac).value >= past[i].recordTs
    {
      LastUploadIsLatest(cfg, past, i, e.mac);
    }
    if LastUpload(cfg, past, e.mac).Some? {
      var i := LastUploadHappened(cfg, past, e.mac);
    }
  }

  /** A metric has a full window whose newest sample is fresh. */
  ghost predicate HasFreshMedian(cfg: Config, events: seq<Event>, e: Event, m: Metric)
    requires cfg.sampleWindow > 0
  {
    var samples := Samples(cfg, events, e.mac, m);
    |samples| >= cfg.sampleWindow && e.recordTs - Last(samples).ts <= cfg.fieldFreshness
  }

  lemma {:induction false} SomethingToPublishIff(cfg: Config, events: seq<Event>, e: Event)
    requires cfg.sampleWindow > 0
    ensures FieldsOf(cfg, events, e) != map[] <==> exists m :: HasFreshMedian(cfg, events, e, m)
  {
    forall m ensures m in FieldsOf(cfg, events, e) <==> HasFreshMedian(cfg, events, e, m) {
      FieldIsFresh(cfg, events, e, m);
      var samples := Samples(cfg, events, e.mac, m);
      FieldIsFreshMedian(cfg, samples, e.recordTs, Fresh(cfg, MedianOf(cfg, samples), e.recordTs));
    }
  }

  /**
   An event is answered with a reading exactly if it is valid, some metric has a fresh
   median, and no upload of the device is less than the interval ago.
   */
  lemma {:induction false} AcceptedIff(cfg: Config, past: seq<Event>, e: Event)
    requires cfg.sampleWindow > 0 && cfg.uploadInterval >= 0
    ensures Verdict(cfg, past + [e]).Accepted?
      <==> IsValid(e) && UploadIsDue(cfg, past, e) && exists m :: HasFreshMedian(cfg, past + [e], e, m)
  {
    assert Front(past + [e]) == past && Last(past + [e]) == e;
    RejectedIff(e);
    DueIffNotTooSoon(cfg, past, e);
    SomethingToPublishIff(cfg, past + [e], e);
  }

  /** The reading is the device's, dated at the start of the event's minute. */
  lemma {:induction false} ReadingIsDated(cfg: Config, events: seq<Event>, e: Event)
    requires cfg.sampleWindow > 0 && events != [] && e == Last(events) && Verdict(cfg, events).Accepted?
    ensures var reading := Verdict(cfg, events).reading;
      reading.mac == e.mac && reading.ts % 60_000 == 0 && reading.ts <= e.recordTs < reading.ts + 60_000
  {
    ReadingOf(cfg, events, e);
    MinuteStarts(e.recordTs);
  }

  lemma {:induction false} ReadingOf(cfg: Config, events: seq<Event>, e: Event)
    requires cfg.sampleWindow > 0 && events != [] && e == Last(events) && Verdict(cfg, events).Accepted?
    ensures Verdict(cfg, events).reading.ts == e.recordTs - e.recordTs % MINUTE
    ensures Verdict(cfg, events).reading.mac == e.mac
  {
  }

  lemma {:induction false} MinuteStarts(ts: int)
    ensures (ts - ts % MINUTE) % 60_000 == 0 && ts - ts % MINUTE <= ts < ts - ts % MINUTE + 60_000
  {
  }

  /** Why a valid event is not answered. */
  lemma {:induction false} IgnoredBecause(cfg: Config, past: seq<Event>, e: Event)
    requires cfg.sampleWindow > 0 && cfg.uploadInterval >= 0 && IsValid(e)
    ensures Verdict(cfg, past + [e]) == Ignored(UploadInterval) <==> !UploadIsDue(cfg, past, e)
    ensures Verdict(cfg, past + [e]) == Ignored(NoMetricValues)
      <==> (UploadIsDue(cfg, past, e) && !(exists m :: HasFreshMedian(cfg, past + [e], e, m))
            && forall m :: AddsNothing(cfg, past, e, m))
  {
    var events := past + [e];
    assert Front(events) == past && Last(events) == e;
    RejectedIff(e);
    DueIffNotTooSoon(cfg, past, e);
    SomethingToPublishIff(cfg, events, e);
    forall m ensures AddsNothing(cfg, past, e, m)
        <==> Offered(cfg, e, LastMetric(cfg, past, e.mac, Temperature), m).None? {
      AddsOffered(cfg, past, e, m);
      OrderIsComplete(m);
    }
  }
}
