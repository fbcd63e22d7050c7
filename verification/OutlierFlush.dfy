/**
 How the local BLE collector flushes one minute window
 (cmd/hm-ble-collector/main.go:661-696): every median passes the outlier filter, what
 is kept reaches the store, and a failed write is flushed again later. The window
 bookkeeping around it is that of SampleAggregation.
 */
module OutlierFlush {
  import opened Minutes
  import opened OutlierFilter
  import SampleAggregation
  import opened Sequences
  import opened SensorStore
  import opened Text
  import opened Wrappers

  /** The metrics that pass the filter, in the order of the calls; lux is stored as it is. */
  const FILTERED: seq<string> := ["temperature_c", "humidity_percent", "battery_percent", "rssi_dbm", "pressure_hpa",
                                  "co2_ppm", "etvoc"]
  const LUX := "lux"

  /** One flush of a window that holds samples, and whether its write failed. */
  datatype Attempt = Attempt(mac: string, window: int, medians: map<string, real>, failed: bool)

  // ---------------------------------------------------------------- what a flush must do

  /** The filter calls for some metrics of an attempt. */
  function CallsFor(a: Attempt, names: seq<string>): seq<Call> {
    if names == [] then [] else CallsFor(a, Front(names)) + CallFor(a, Last(names))
  }

  function CallFor(a: Attempt, name: string): seq<Call> {
    if name in a.medians then [Call(a.mac, name, OutlierFilter.Reading(a.window, a.medians[name]))] else []
  }

  function CallsOf(names: seq<string>, attempts: seq<Attempt>): seq<Call> {
    if attempts == [] then [] else CallsOf(names, Front(attempts)) + CallsFor(Last(attempts), names)
  }

  /** Whether a median passes, given all calls made before its window was flushed. */
  ghost predicate Passes(config: Config, calls: seq<Call>, a: Attempt, name: string)
    requires name in a.medians
  {
    || !Screened(config, name)
    || OutlierFilter.Kept(ScreenFor(config, name),
                          ReadingsOf(calls, a.mac, name) + [OutlierFilter.Reading(a.window, a.medians[name])])
  }

  /** What is left of an attempt's medians. */
  ghost function Passed(config: Config, calls: seq<Call>, a: Attempt): map<string, real> {
    map name | name in a.medians && (name == LUX || Passes(config, calls, a, name)) :: a.medians[name]
  }

  function StoredAt(a: Attempt): Key { Key(a.window - a.window % MINUTE, NormalizeMAC(a.mac)) }

  ghost function WriteFor(config: Config, calls: seq<Call>, a: Attempt): seq<Write> {
    if a.failed || Passed(config, calls, a) == map[] then []
    else [Write(StoredAt(a), Passed(config, calls, a))]
  }

  ghost function WritesOf(config: Config, names: seq<string>, attempts: seq<Attempt>): seq<Write> {
    if attempts == [] then []
    else WritesOf(config, names, Front(attempts)) + WriteFor(config, CallsOf(names, Front(attempts)), Last(attempts))
  }

  /** A write fails only if there is something to write, and succeeds only under a valid address. */
  ghost predicate Possible(config: Config, calls: seq<Call>, a: Attempt) {
    if Passed(config, calls, a) == map[] then !a.failed else a.failed || NormalizeMAC(a.mac) != ""
  }

  /** The attempts that a collector can make. */
  ghost predicate Happens(config: Config, names: seq<string>, attempts: seq<Attempt>) {
    attempts == []
    || (Happens(config, names, Front(attempts)) && Possible(config, CallsOf(names, Front(attempts)), Last(attempts)))
  }

  function AttemptOf(agg: SampleAggregation.Aggregate, failed: bool): Attempt {
    Attempt(agg.mac, agg.window, SampleAggregation.Medians(agg), failed)
  }

  class Collector {
    const names: seq<string>
    const filter: OutlierFilter.Collector
    const db: Store
    ghost var attempts: seq<Attempt>

    ghost predicate Valid()
      reads this, filter, db
    {
      && Distinct(names) && LUX !in names && Happens(filter.outliers, names, attempts)
      && filter.Valid() && filter.calls == CallsOf(names, attempts)
      && db.minutes == Replay(WritesOf(filter.outliers, names, attempts))
    }

    constructor (config: Config, store: Store)
      requires store.minutes == map[]
      ensures Valid() && db == store && fresh(filter) && filter.outliers == config && names == FILTERED
        && attempts == []
    {
      NamesDiffer();
      names := FILTERED;
      filter := new OutlierFilter.Collector(config);
      db, attempts := store, [];
    }

    /** Flushes one window that was collected; an empty one leaves no trace. */
    method Flush(agg: SampleAggregation.Aggregate, fails: bool) returns (wrote: bool, ok: bool)
      requires Valid()
      requires forall name :: name in agg.samples ==> name in names || name == LUX
      modifies this, filter, db`minutes
      ensures Valid()
      ensures attempts == if SampleAggregation.IsEmpty(agg) then old(attempts)
        else old(attempts) + [AttemptOf(agg, !ok)]
      ensures var passed := Passed(filter.outliers, old(filter.calls), AttemptOf(agg, false));
        if SampleAggregation.IsEmpty(agg) then !wrote && ok
        else ok == (passed == map[] || (!fails && NormalizeMAC(agg.mac) != "")) && wrote == (ok && passed != map[])
    {
      if SampleAggregation.IsEmpty(agg) {
        return false, true;
      }
      wrote, ok := FlushMedians(AttemptOf(agg, false), fails);
    }

    /** Sends the medians of one window through the filter and stores what is left. */
    method FlushMedians(a: Attempt, fails: bool) returns (wrote: bool, ok: bool)
      requires Valid()
      requires forall name :: name in a.medians ==> name in names || name == LUX
      modifies this, filter, db`minutes
      ensures Valid() && attempts == old(attempts) + [a.(failed := !ok)]
      ensures var passed := Passed(filter.outliers, old(filter.calls), a);
        ok == (passed == map[] || (!fails && NormalizeMAC(a.mac) != "")) && wrote == (ok && passed != map[])
    {
      ghost var before := CallsOf(names, attempts);
      var kept := FilterAll(a, before);
      LuxPasses(filter.outliers, before, a, names);
      if LUX in a.medians {
        kept := kept[LUX := a.medians[LUX]];
      }
      wrote, ok := StoreKept(a, kept, fails);
    }

    method StoreKept(a: Attempt, kept: map<string, real>, fails: bool) returns (wrote: bool, ok: bool)
      requires Distinct(names) && LUX !in names && filter.Valid()
        && filter.calls == CallsOf(names, attempts) + CallsFor(a, names)
      requires kept == Passed(filter.outliers, CallsOf(names, attempts), a)
      requires db.minutes == Replay(WritesOf(filter.outliers, names, attempts))
        && Happens(filter.outliers, names, attempts)
      modifies this`attempts, db`minutes
      ensures Valid() && attempts == old(attempts) + [a.(failed := !ok)]
      ensures ok == (kept == map[] || (!fails && NormalizeMAC(a.mac) != "")) && wrote == (ok && kept != map[])
    {
      wrote, ok := Upsert(a, kept, fails);
      FailureKeepsCalls(filter.outliers, CallsOf(names, attempts), a, a.(failed := !ok), names);
      AttemptRecorded(filter.outliers, names, attempts, a, !ok, kept, WritesOf(filter.outliers, names, attempts));
      attempts := attempts + [a.(failed := !ok)];
    }

    method Upsert(a: Attempt, kept: map<string, real>, fails: bool) returns (wrote: bool, ok: bool)
      modifies db`minutes
      ensures ok == (kept == map[] || (!fails && NormalizeMAC(a.mac) != "")) && wrote == (ok && kept != map[])
      ensures db.minutes == if wrote then Merged(old(db.minutes), StoredAt(a), kept) else old(db.minutes)
    {
      if kept == map[] {
        return false, true;
      }
      var r := db.UpsertMinute(Some(a.window), a.mac, kept, fails);
      return r.Ok?, r.Ok?;
    }

    /** The calls of the filter, one per metric that has a median. */
    method FilterAll(a: Attempt, ghost before: seq<Call>) returns (kept: map<string, real>)
      requires Distinct(names) && filter.Valid() && filter.calls == before
      modifies filter
      ensures filter.Valid() && filter.calls == before + CallsFor(a, names)
      ensures kept == Filtered(filter.outliers, before, a, names)
    {
      kept := map[];
      for i := 0 to |names|
        invariant filter.Valid() && filter.calls == before + CallsFor(a, names[..i])
        invariant kept == Filtered(filter.outliers, before, a, names[..i])
      {
        kept := FilterOne(a, names[i], names[..i], before, kept);
        assert names[..i + 1] == names[..i] + [names[i]];
      }
      assert names[..|names|] == names;
    }

    method FilterOne(a: Attempt, name: string, ghost done: seq<string>, ghost before: seq<Call>,
                     keptSoFar: map<string, real>)
      returns (kept: map<string, real>)
      requires filter.Valid() && filter.calls == before + CallsFor(a, done) && name !in done
      requires keptSoFar == Filtered(filter.outliers, before, a, done)
      modifies filter
      ensures filter.Valid() && filter.calls == before + CallsFor(a, done + [name])
      ensures kept == Filtered(filter.outliers, before, a, done + [name])
    {
      kept := keptSoFar;
      OtherCallsDoNotMatter(before, a, done, name);
      NextCall(before, a, done, name);
      FilteredGrows(filter.outliers, before, a, done, name);
      if name in a.medians {
        var value := filter.FilterMetric(a.mac, name, a.window, Some(a.medians[name]));
        if value.Some? {
          kept := kept[name := value.value];
        }
      }
    }
  }

  ghost predicate Distinct(names: seq<string>) {
    forall i :: 0 <= i < |names| ==> names[i] !in names[..i]
  }

  ghost function Filtered(config: Config, calls: seq<Call>, a: Attempt, names: seq<string>): map<string, real> {
    map name | name in a.medians && name in names && Passes(config, calls, a, name) :: a.medians[name]
  }

  lemma {:induction false} NextCall(before: seq<Call>, a: Attempt, names: seq<string>, name: string)
    ensures before + CallsFor(a, names + [name]) == before + CallsFor(a, names) + CallFor(a, name)
    ensures CallFor(a, name) == [] ==> before + CallsFor(a, names + [name]) == before + CallsFor(a, names)
  {
  }

  lemma {:induction false} FilteredGrows(config: Config, calls: seq<Call>, a: Attempt, names: seq<string>, name: string)
    ensures Filtered(config, calls, a, names + [name]) ==
      if name in a.medians && Passes(config, calls, a, name)
        then Filtered(config, calls, a, names)[name := a.medians[name]]
      else Filtered(config, calls, a, names)
  {
  }

  lemma {:induction false} NamesDiffer()
    ensures Distinct(FILTERED) && LUX !in FILTERED
  {
  }

  /** The calls for other metrics leave a metric's readings as they were. */
  lemma {:induction false} OtherCallsDoNotMatter(before: seq<Call>, a: Attempt, names: seq<string>, name: string)
    requires name !in names
    ensures ReadingsOf(before + CallsFor(a, names), a.mac, name) == ReadingsOf(before, a.mac, name)
  {
    if names == [] {
      assert before + CallsFor(a, names) == before;
    } else {
      OtherCallsDoNotMatter(before, a, Front(names), name);
      OtherCall(before, CallsFor(a, Front(names)), CallFor(a, Last(names)), a.mac, name);
    }
  }

  lemma {:induction false} OtherCall(before: seq<Call>, calls: seq<Call>, more: seq<Call>, mac: string, name: string)
    requires more == [] || (|more| == 1 && more[0].name != name)
    ensures ReadingsOf(before + (calls + more), mac, name) == ReadingsOf(before + calls, mac, name)
  {
    if more == [] {
      assert calls + more == calls;
    } else {
      assert Front(before + (calls + more)) == before + calls;
    }
  }

  lemma {:induction false} LuxPasses(config: Config, calls: seq<Call>, a: Attempt, names: seq<string>)
    requires LUX !in names && forall name :: name in a.medians ==> name in names || name == LUX
    ensures Passed(config, calls, a)
      == if LUX in a.medians then Filtered(config, calls, a, names)[LUX := a.medians[LUX]]
        else Filtered(config, calls, a, names)
  {
  }

  /** Calls and kept medians do not depend on how the write ends. */
  lemma {:induction false} FailureKeepsCalls(config: Config, calls: seq<Call>, a: Attempt, b: Attempt,
                                             names: seq<string>)
    requires b == a.(failed := b.failed)
    ensures CallsFor(b, names) == CallsFor(a, names)
    ensures Passed(config, calls, b) == Passed(config, calls, a)
  {
    if names == [] {
    } else {
      FailureKeepsCalls(config, calls, a, b, Front(names));
    }
  }

  lemma {:induction false} AttemptRecorded(config: Config, names: seq<string>, attempts: seq<Attempt>, a: Attempt,
                                           failed: bool, kept: map<string, real>, writes: seq<Write>)
    requires kept == Passed(config, CallsOf(names, attempts), a) && writes == WritesOf(config, names, attempts)
    ensures var next := attempts + [a.(failed := failed)];
      && CallsOf(names, next) == CallsOf(names, attempts) + CallsFor(a, names)
      && Replay(WritesOf(config, names, next)) == if failed || kept == map[] then Replay(writes)
        else Merged(Replay(writes), StoredAt(a), kept)
    ensures Happens(config, names, attempts) && Possible(config, CallsOf(names, attempts), a.(failed := failed)) ==>
      Happens(config, names, attempts + [a.(failed := failed)])
  {
    var now := a.(failed := failed);
    FailureKeepsCalls(config, CallsOf(names, attempts), a, now, names);
    assert Front(attempts + [now]) == attempts && Last(attempts + [now]) == now;
    LastWrite(writes, WriteFor(config, CallsOf(names, attempts), now));
  }

  lemma {:induction false} LastWrite(writes: seq<Write>, more: seq<Write>)
    requires |more| <= 1
    ensures Replay(writes + more) == if more == [] then Replay(writes)
      else Merged(Replay(writes), more[0].key, more[0].values)
  {
    if more == [] {
      assert writes + more == writes;
    } else {
      assert (writes + more)[..|writes|] == writes;
    }
  }

  // ---------------------------------------------------------------- what reaches the store

  lemma {:induction false} BandIsPrefixClosed(c: Screen, readings: seq<OutlierFilter.Reading>, lo: real, hi: real)
    requires readings != [] && BandWithLoneSpikes(c, readings, lo, hi)
    ensures BandWithLoneSpikes(c, Front(readings), lo, hi)
  {
  }

  /** The readings of a metric grow by the attempt's median, if it has one. */
  lemma {:induction false} ReadingsAfter(names: seq<string>, attempts: seq<Attempt>, mac: string, name: string)
    requires Distinct(names) && attempts != [] && name in names
    ensures var a, before := Last(attempts), ReadingsOf(CallsOf(names, Front(attempts)), mac, name);
      ReadingsOf(CallsOf(names, attempts), mac, name)
      == if a.mac == mac && name in a.medians then before + [OutlierFilter.Reading(a.window, a.medians[name])]
        else before
  {
    ReadingsAfterCalls(CallsOf(names, Front(attempts)), Last(attempts), names, mac, name);
  }

  lemma {:induction false} ReadingsAfterCalls(before: seq<Call>, a: Attempt, names: seq<string>, mac: string,
                                              name: string)
    requires Distinct(names)
    ensures ReadingsOf(before + CallsFor(a, names), mac, name) == ReadingsOf(before, mac, name)
      + if a.mac == mac && name in names && name in a.medians then [OutlierFilter.Reading(a.window, a.medians[name])]
        else []
  {
    if names == [] {
      assert before + CallsFor(a, names) == before;
    } else {
      DistinctFront(names);
      ReadingsAfterCalls(before, a, Front(names), mac, name);
      NextCall(before, a, Front(names), Last(names));
      ReadingsAfterCall(before + CallsFor(a, Front(names)), a, Last(names), mac, name);
    }
  }

  lemma {:induction false} DistinctFront(names: seq<string>)
    requires names != [] && Distinct(names)
    ensures names == Front(names) + [Last(names)] && Last(names) !in Front(names) && Distinct(Front(names))
    ensures forall name :: name in names <==> name in Front(names) || name == Last(names)
  {
  }

  lemma {:induction false} ReadingsAfterCall(calls: seq<Call>, a: Attempt, last: string, mac: string, name: string)
    ensures ReadingsOf(calls + CallFor(a, last), mac, name) == ReadingsOf(calls, mac, name)
      + if a.mac == mac && name == last && name in a.medians then [OutlierFilter.Reading(a.window, a.medians[name])]
        else []
  {
    if last in a.medians {
      assert Front(calls + CallFor(a, last)) == calls;
    } else {
      assert calls + CallFor(a, last) == calls;
    }
  }

  ghost function Stored(config: Config, names: seq<string>, attempts: seq<Attempt>, key: Key,
                        name: string): Option<real> {
    Column(Replay(WritesOf(config, names, attempts)), key, name)
  }

  lemma {:induction false} ColumnAfter(writes: seq<Write>, more: seq<Write>, key: Key, name: string)
    requires |more| <= 1
    ensures Column(Replay(writes + more), key, name) ==
      if more != [] && more[0].key == key && name in more[0].values then Some(more[0].values[name])
      else Column(Replay(writes), key, name)
  {
    LastWrite(writes, more);
  }

  lemma {:induction false} StoredAfter(config: Config, names: seq<string>, attempts: seq<Attempt>, key: Key,
                                       name: string, a: Attempt)
    requires attempts != [] && a == Last(attempts)
    ensures Stored(config, names, attempts, key, name) ==
      if !a.failed && StoredAt(a) == key
        && name in Passed(config, CallsOf(names, Front(attempts)), a) then Some(a.medians[name])
      else Stored(config, names, Front(attempts), key, name)
  {
    var passed := Passed(config, CallsOf(names, Front(attempts)), a);
    assert name in passed ==> passed != map[] && passed[name] == a.medians[name];
    ColumnAfter(WritesOf(config, names, Front(attempts)), WriteFor(config, CallsOf(names, Front(attempts)), a), key,
                name);
  }

  /** A metric of one sensor whose medians form a band with lone spikes. */
  ghost predicate BandOf(config: Config, names: seq<string>, attempts: seq<Attempt>, mac: string, name: string,
                         lo: real, hi: real) {
    && Distinct(names) && name in names && name != LUX
    && Screened(config, name) && config.historySize >= 3
    && BandWithLoneSpikes(ScreenFor(config, name), ReadingsOf(CallsOf(names, attempts), mac, name), lo, hi)
  }

  lemma {:induction false} BandBefore(config: Config, names: seq<string>, attempts: seq<Attempt>, mac: string,
                                      name: string, lo: real, hi: real)
    requires attempts != [] && BandOf(config, names, attempts, mac, name, lo, hi)
    ensures BandOf(config, names, Front(attempts), mac, name, lo, hi)
  {
    var c, a := ScreenFor(config, name), Last(attempts);
    var readings := ReadingsOf(CallsOf(names, attempts), mac, name);
    ReadingsAfter(names, attempts, mac, name);
    if a.mac == mac && name in a.medians {
      BandIsPrefixClosed(c, readings, lo, hi);
      assert Front(readings) == ReadingsOf(CallsOf(names, Front(attempts)), mac, name);
    } else {
      assert ReadingsOf(CallsOf(names, Front(attempts)), mac, name) + [] == readings;
    }
  }

  lemma {:induction false} PassesIffInBand(config: Config, names: seq<string>, attempts: seq<Attempt>, mac: string,
                                           name: string, lo: real, hi: real)
    requires attempts != [] && BandOf(config, names, attempts, mac, name, lo, hi)
    requires Last(attempts).mac == mac && name in Last(attempts).medians
    ensures name in Passed(config, CallsOf(names, Front(attempts)), Last(attempts))
      <==> InBand(Last(attempts).medians[name], lo, hi)
  {
    ReadingsAfter(names, attempts, mac, name);
    LoneSpikesAreRemoved(ScreenFor(config, name), ReadingsOf(CallsOf(names, attempts), mac, name), lo, hi);
  }

  /** A flushed median is stored exactly when it lies in the band; a spike leaves its column as it was. */
  lemma {:induction false} StoredIffInBand(config: Config, names: seq<string>, attempts: seq<Attempt>, name: string,
                                           lo: real, hi: real)
    requires attempts != [] && !Last(attempts).failed && name in Last(attempts).medians
    requires BandOf(config, names, attempts, Last(attempts).mac, name, lo, hi)
    ensures var a := Last(attempts);
      Stored(config, names, attempts, StoredAt(a), name) ==
      if InBand(a.medians[name], lo, hi) then Some(a.medians[name])
        else Stored(config, names, Front(attempts), StoredAt(a), name)
  {
    PassesIffInBand(config, names, attempts, Last(attempts).mac, name, lo, hi);
    StoredAfter(config, names, attempts, StoredAt(Last(attempts)), name, Last(attempts));
  }

  /** No spike is ever stored, in any minute; failed writes matter only through the readings they repeat. */
  lemma {:induction false} SpikesAreNeverStored(config: Config, names: seq<string>, attempts: seq<Attempt>, key: Key,
                                                name: string, lo: real, hi: real)
    requires BandOf(config, names, attempts, key.mac, name, lo, hi)
    requires forall a :: a in attempts ==> NormalizeMAC(a.mac) == a.mac
    ensures Stored(config, names, attempts, key, name).Some? ==>
      InBand(Stored(config, names, attempts, key, name).value, lo, hi)
  {
    if attempts == [] {
    } else {
      var a := Last(attempts);
      BandBefore(config, names, attempts, key.mac, name, lo, hi);
      SpikesAreNeverStored(config, names, Front(attempts), key, name, lo, hi);
      StoredAfter(config, names, attempts, key, name, a);
      assert a in attempts;
      if StoredAt(a) == key && name in a.medians {
        PassesIffInBand(config, names, attempts, key.mac, name, lo, hi);
      }
    }
  }

  /** A failed write lets a spike through: flushed again, the spike confirms itself and is stored. */
  lemma {:induction false} RetriedSpikeIsStored(config: Config, names: seq<string>, attempts: seq<Attempt>, a: Attempt,
                                                name: string)
    requires Distinct(names) && name in names && name in a.medians && !a.failed && config.confirmWindow >= 0
    requires Happens(config, names, attempts) && NormalizeMAC(a.mac) != ""
    requires Passed(config, CallsOf(names, attempts), a) != map[] && !Passes(config, CallsOf(names, attempts), a, name)
    ensures Happens(config, names, attempts + [a.(failed := true)] + [a])
    ensures Stored(config, names, attempts + [a.(failed := true)] + [a], StoredAt(a), name) == Some(a.medians[name])
  {
    var failure := a.(failed := true);
    FailureKeepsCalls(config, CallsOf(names, attempts), a, failure, names);
    NextHappens(config, names, attempts, failure);
    NextHappens(config, names, attempts + [failure], a);
    RepeatedSpikePasses(config, names, attempts, a, name);
  }

  lemma {:induction false} NextHappens(config: Config, names: seq<string>, attempts: seq<Attempt>, a: Attempt)
    requires Happens(config, names, attempts) && Possible(config, CallsOf(names, attempts), a)
    ensures Happens(config, names, attempts + [a])
  {
    assert Front(attempts + [a]) == attempts && Last(attempts + [a]) == a;
  }

  lemma {:induction false} RepeatedSpikePasses(config: Config, names: seq<string>, attempts: seq<Attempt>, a: Attempt,
                                               name: string)
    requires Distinct(names) && name in names && name in a.medians && !a.failed && config.confirmWindow >= 0
    requires !Passes(config, CallsOf(names, attempts), a, name)
    ensures Stored(config, names, attempts + [a.(failed := true)] + [a], StoredAt(a), name) == Some(a.medians[name])
  {
    var once, r := attempts + [a.(failed := true)], OutlierFilter.Reading(a.window, a.medians[name]);
    assert Front(once) == attempts && Front(once + [a]) == once;
    ReadingsAfter(names, once, a.mac, name);
    RepeatIsAccepted(ScreenFor(config, name), ReadingsOf(CallsOf(names, attempts), a.mac, name), r);
    assert Passes(config, CallsOf(names, once), a, name);
    StoredAfter(config, names, once + [a], StoredAt(a), name, a);
  }
}
