/**
 Which readings share a window, which windows a flush takes, and what of a window reaches
 the store whatever the outlier filter says (aggregate.go of the IoT Orchestrator
 collector, and cmd/hm-ble-collector/main.go:669-696).
 */
module WindowLaws {
  import opened Minutes
  import opened OrderStatistics
  import opened OutlierFilter
  import F = OutlierFlush
  import A = SampleAggregation
  import opened SensorMetrics
  import opened Text
  import opened Wrappers

  // ---------------------------------------------------------------- windows

  /** Readings share a window exactly if they come from one device in one minute. */
  lemma {:induction false} SharesWindowIff(a: A.Reading, b: A.Reading)
    ensures A.WindowOf(a) == A.WindowOf(b) <==> a.mac == b.mac && a.ts / 60 == b.ts / 60
    ensures A.WindowOf(a).ts % 60 == 0 && A.WindowOf(a).ts <= a.ts < A.WindowOf(a).ts + 60
  {
  }

  /** A window is stored at its own minute, under the device's normal address. */
  lemma {:induction false} WindowIsStoredAt(agg: A.Aggregate, r: A.Reading)
    requires agg.window == A.WindowOf(r).ts
    ensures A.StoredKey(agg) == Key(A.WindowOf(r).ts, NormalizeMAC(agg.mac))
    ensures F.StoredAt(F.AttemptOf(agg, false)) == Key(A.WindowOf(r).ts, NormalizeMAC(agg.mac))
  {
  }

  /** A metric is written exactly if it has samples, with their median. */
  lemma {:induction false} MediansOfWindow(agg: A.Aggregate, metric: string)
    ensures metric in A.Medians(agg) <==> metric in agg.samples && agg.samples[metric] != []
    ensures metric in A.Medians(agg) ==> A.Medians(agg)[metric] == Median(agg.samples[metric])
    ensures A.Medians(agg) == map[] <==> A.IsEmpty(agg)
  {
    if !A.IsEmpty(agg) {
      A.NotEmptyHasMedian(agg);
    }
  }

  /** The current minute and later ones stay open; of the earlier ones, those whose write fails. */
  lemma {:induction false} StaysOpenIff(windows: map<Key, A.Aggregate>, currentWindow: int, fails: set<Key>, k: Key)
    requires A.WellKeyed(windows) && k in windows
    ensures k in A.Kept(windows, currentWindow, fails)
      <==> (windows[k].window >= currentWindow
            || (A.Medians(windows[k]) != map[] && (k in fails || NormalizeMAC(k.mac) == "")))
  {
    MediansOfWindow(windows[k], "");
  }

  // ---------------------------------------------------------------- what the filter leaves alone

  /** After a successful flush, lux and every metric without a threshold are stored as measured. */
  lemma {:induction false} UnfilteredIsStored(config: Config, names: seq<string>, attempts: seq<F.Attempt>,
                                              a: F.Attempt, name: string)
    requires !a.failed && name in a.medians
    requires name == "lux" || !config.enabled || name !in config.thresholds || config.thresholds[name] <= 0.0
      || config.historySize <= 0
    ensures F.Stored(config, names, attempts + [a], F.StoredAt(a), name) == Some(a.medians[name])
  {
    assert (attempts + [a])[..|attempts|] == attempts;
    F.StoredAfter(config, names, attempts + [a], F.StoredAt(a), name, a);
  }

  /** A flush changes no other row, and no column of its row that the window does not carry. */
  lemma {:induction false} OtherColumnsStay(config: Config, names: seq<string>, attempts: seq<F.Attempt>, a: F.Attempt,
                                            key: Key, name: string)
    requires a.failed || name !in a.medians || key != F.StoredAt(a)
    ensures F.Stored(config, names, attempts + [a], key, name) == F.Stored(config, names, attempts, key, name)
  {
    assert (attempts + [a])[..|attempts|] == attempts;
    F.StoredAfter(config, names, attempts + [a], key, name, a);
  }

  /** The filter sees every stored column but lux and the two soil metrics, which this collector does not measure. */
  lemma {:induction false} FilteredColumns(name: string)
    ensures name in F.FILTERED
      <==> name in COLUMNS && name != "lux" && name != "soil_moisture_percent" && name != "conductivity_us_cm"
  {
    assert F.FILTERED[0] == "temperature_c" && F.FILTERED[1] == "humidity_percent";
    assert F.FILTERED[2] == "battery_percent" && F.FILTERED[3] == "rssi_dbm" && F.FILTERED[4] == "pressure_hpa";
    assert F.FILTERED[5] == "co2_ppm" && F.FILTERED[6] == "etvoc";
  }
}
