/**
 The outlier confirmation filter of the local BLE collector
 (cmd/hm-ble-collector/main.go). Times are integers, readings are reals.

 `Kept` and `AcceptedBy` describe the filter without its stored state, from the
 readings of one sensor and metric alone; `Collector.FilterMetric` refines them.
 */
module OutlierFilter {
  import opened NestedMap
  import opened OrderStatistics
  import opened Reals
  import opened Sequences
  import opened Wrappers

  datatype Config = Config(enabled: bool, historySize: int, confirmWindow: int, thresholds: map<string, real>)
  datatype Reading = Reading(ts: int, value: real)
  datatype History = History(accepted: seq<real>, pending: Option<Reading>)
  datatype Call = Call(mac: string, name: string, reading: Reading)

  /** The settings that apply to one screened metric. */
  datatype Screen = Screen(threshold: real, size: nat, confirmWindow: int)

  // ---------------------------------------------------------------- stream specification

  /** The window the next reading is judged against: the last accepted values. */
  ghost function Window(c: Screen, past: seq<Reading>): seq<real>
    decreases |past|, 1
  {
    LastN(AcceptedBy(c, past), c.size)
  }

  ghost predicate NearBaseline(c: Screen, past: seq<Reading>, value: real)
    decreases |past|, 2
  {
    var window := Window(c, past);
    |window| < 3 || Abs(value - Median(window)) <= c.threshold
  }

  ghost predicate ConfirmsPrevious(c: Screen, past: seq<Reading>, r: Reading)
    decreases |past|, 2
  {
    && past != []
    && !Kept(c, past)
    && r.ts - Last(past).ts <= c.confirmWindow
    && Abs(r.value - Last(past).value) <= c.threshold
  }

  /** Whether the last reading of a stream is passed on. */
  ghost predicate Kept(c: Screen, readings: seq<Reading>)
    requires readings != []
    decreases |readings|, 0
  {
    var past, r := Front(readings), Last(readings);
    NearBaseline(c, past, r.value) || ConfirmsPrevious(c, past, r)
  }

  /** Every value the filter has accepted, oldest first. */
  ghost function AcceptedBy(c: Screen, readings: seq<Reading>): seq<real>
    decreases |readings|, 0
  {
    if readings == [] then []
    else
      var past, r := Front(readings), Last(readings);
      if NearBaseline(c, past, r.value) then AcceptedBy(c, past) + [r.value]
      else if ConfirmsPrevious(c, past, r) then AcceptedBy(c, past) + [Last(past).value, r.value]
      else AcceptedBy(c, past)
  }

  ghost function ReadingsOf(calls: seq<Call>, mac: string, name: string): seq<Reading> {
    if calls == [] then []
    else if Last(calls).mac == mac && Last(calls).name == name then
      ReadingsOf(Front(calls), mac, name) + [Last(calls).reading]
    else
      ReadingsOf(Front(calls), mac, name)
  }

  // ---------------------------------------------------------------- the collector's state

  predicate Screened(config: Config, name: string) {
    config.enabled && name in config.thresholds && config.thresholds[name] > 0.0 && config.historySize > 0
  }

  function ScreenFor(config: Config, name: string): Screen
    requires Screened(config, name)
  {
    Screen(config.thresholds[name], config.historySize, config.confirmWindow)
  }

  function HistoryIn(histories: Nested<string, History>, mac: string, name: string): History {
    match Get(histories, mac, name)
    case Some(history) => history
    case None => History([], None)
  }

  /** The history a screened metric must hold after its readings. */
  ghost function HistoryAfter(c: Screen, readings: seq<Reading>): History {
    History(Window(c, readings),
            if readings != [] && !Kept(c, readings) then Some(Last(readings)) else None)
  }

  /** Accepted holds the last accepted values; Pending is the last reading, iff it was withheld. */
  ghost predicate Tracks(config: Config, histories: Nested<string, History>, calls: seq<Call>) {
    forall mac, name :: Screened(config, name) ==>
      HistoryIn(histories, mac, name) == HistoryAfter(ScreenFor(config, name), ReadingsOf(calls, mac, name))
  }

  class Collector {
    const outliers: Config
    var metricHistory: Nested<string, History>
    ghost var calls: seq<Call>  // every non-nil value handed to the filter

    ghost predicate Valid()
      reads this
    {
      Tracks(outliers, metricHistory, calls)
    }

    constructor (config: Config)
      ensures Valid() && outliers == config && calls == []
    {
      outliers := config;
      metricHistory := map[];
      calls := [];
    }

    method FilterMetric(mac: string, name: string, ts: int, value: Option<real>) returns (kept: Option<real>)
      requires Valid()
      modifies this
      ensures Valid()
      ensures value.None? ==> kept == None && calls == old(calls)
      ensures value.Some? ==> calls == old(calls) + [Call(mac, name, Reading(ts, value.value))]
      ensures value.Some? ==>
        var screened := outliers.enabled && name in outliers.thresholds && outliers.thresholds[name] > 0.0
                        && outliers.historySize > 0;
        kept == if screened ==> Kept(Screen(outliers.thresholds[name], outliers.historySize, outliers.confirmWindow),
                                     ReadingsOf(old(calls), mac, name) + [Reading(ts, value.value)])
                then value else None
    {
      if value.None? {
        return value;
      }
      ghost var call := Call(mac, name, Reading(ts, value.value));
      if !outliers.enabled || name !in outliers.thresholds || outliers.thresholds[name] <= 0.0
        || outliers.historySize <= 0 {
        UnscreenedCall(outliers, metricHistory, calls, call);
        calls := calls + [call];
        return value;
      }
      kept := ScreenMetric(mac, name, ts, value.value, outliers.thresholds[name]);
    }

    /** The filter proper, for a metric that has a threshold. */
    method ScreenMetric(mac: string, name: string, ts: int, value: real, threshold: real) returns (kept: Option<real>)
      requires Valid() && Screened(outliers, name) && threshold == outliers.thresholds[name]
      modifies this
      ensures Valid() && calls == old(calls) + [Call(mac, name, Reading(ts, value))]
      ensures kept == if Kept(ScreenFor(outliers, name), ReadingsOf(old(calls), mac, name) + [Reading(ts, value)])
                      then Some(value) else None
    {
      ghost var call := Call(mac, name, Reading(ts, value));
      ghost var before, past := metricHistory, calls;
      var history := HistoryIn(metricHistory, mac, name);
      calls := calls + [call];
      if |history.accepted| < 3 {
        AcceptMetric(mac, name, value);
        PlainCall(outliers, before, metricHistory, past, call);
        return Some(value);
      }
      var baseline := ComputeMedian(history.accepted);
      if Abs(value - baseline) <= threshold {
        AcceptMetric(mac, name, value);
        PlainCall(outliers, before, metricHistory, past, call);
        return Some(value);
      }
      if history.pending.Some? && ts - history.pending.value.ts <= outliers.confirmWindow
         && Abs(value - history.pending.value.value) <= threshold {
        AcceptMetric(mac, name, history.pending.value.value);
        AcceptMetric(mac, name, value);
        ConfirmedCall(outliers, before, metricHistory, past, call);
        return Some(value);
      }
      metricHistory := Put(metricHistory, mac, name, history.(pending := Some(Reading(ts, value))));
      WithheldCall(outliers, before, metricHistory, past, call);
      return None;
    }

    method AcceptMetric(mac: string, name: string, value: real)
      requires outliers.historySize > 0
      modifies this`metricHistory
      ensures metricHistory == Put(old(metricHistory), mac, name,
        History(LastN(HistoryIn(old(metricHistory), mac, name).accepted + [value], outliers.historySize), None))
    {
      var accepted := HistoryIn(metricHistory, mac, name).accepted + [value];
      if |accepted| > outliers.historySize {
        accepted := accepted[|accepted| - outliers.historySize..];
      }
      metricHistory := Put(metricHistory, mac, name, History(accepted, None));
    }
  }

  lemma {:induction false} ScreenedCall(config: Config, before: Nested<string, History>, after: Nested<string, History>,
                                        calls: seq<Call>, call: Call)
    requires Tracks(config, before, calls) && Screened(config, call.name)
    requires forall m, n :: m != call.mac || n != call.name ==> HistoryIn(after, m, n) == HistoryIn(before, m, n)
    requires HistoryIn(after, call.mac, call.name)
      == HistoryAfter(ScreenFor(config, call.name), ReadingsOf(calls, call.mac, call.name) + [call.reading])
    ensures Tracks(config, after, calls + [call])
  {
    assert Front(calls + [call]) == calls;
    forall m, n | Screened(config, n)
      ensures HistoryIn(after, m, n) == HistoryAfter(ScreenFor(config, n), ReadingsOf(calls + [call], m, n))
    {
      if m != call.mac || n != call.name {
        assert HistoryIn(after, m, n) == HistoryIn(before, m, n);
        assert ReadingsOf(calls + [call], m, n) == ReadingsOf(calls, m, n);
      }
    }
  }

  /** The readings before a call. */
  ghost function Met(calls: seq<Call>, call: Call): seq<Reading> { ReadingsOf(calls, call.mac, call.name) }

  lemma {:induction false} PlainCall(config: Config, before: Nested<string, History>, after: Nested<string, History>,
                                     calls: seq<Call>, call: Call)
    requires Tracks(config, before, calls) && Screened(config, call.name)
    requires NearBaseline(ScreenFor(config, call.name), Met(calls, call), call.reading.value)
    requires after == Put(before, call.mac, call.name,
      History(LastN(HistoryIn(before, call.mac, call.name).accepted + [call.reading.value], config.historySize), None))
    ensures Tracks(config, after, calls + [call])
    ensures Kept(ScreenFor(config, call.name), Met(calls, call) + [call.reading])
  {
    NextPlain(ScreenFor(config, call.name), Met(calls, call), call.reading);
    ScreenedCall(config, before, after, calls, call);
  }

  lemma {:induction false} ConfirmedCall(config: Config, before: Nested<string, History>,
                                         after: Nested<string, History>, calls: seq<Call>, call: Call)
    requires Tracks(config, before, calls) && Screened(config, call.name)
    requires !NearBaseline(ScreenFor(config, call.name), Met(calls, call), call.reading.value)
    requires ConfirmsPrevious(ScreenFor(config, call.name), Met(calls, call), call.reading)
    requires
      var history, n := HistoryIn(before, call.mac, call.name), config.historySize;
      history.pending.Some? && HistoryIn(after, call.mac, call.name)
        == History(LastN(LastN(history.accepted + [history.pending.value.value], n) + [call.reading.value], n), None)
    requires forall m, n :: m != call.mac || n != call.name ==> HistoryIn(after, m, n) == HistoryIn(before, m, n)
    ensures Tracks(config, after, calls + [call])
    ensures Kept(ScreenFor(config, call.name), Met(calls, call) + [call.reading])
  {
    NextConfirmed(ScreenFor(config, call.name), Met(calls, call), call.reading);
    ScreenedCall(config, before, after, calls, call);
  }

  lemma {:induction false} WithheldCall(config: Config, before: Nested<string, History>, after: Nested<string, History>,
                                        calls: seq<Call>, call: Call)
    requires Tracks(config, before, calls) && Screened(config, call.name)
    requires !NearBaseline(ScreenFor(config, call.name), Met(calls, call), call.reading.value)
    requires !ConfirmsPrevious(ScreenFor(config, call.name), Met(calls, call), call.reading)
    requires after == Put(before, call.mac, call.name,
      HistoryIn(before, call.mac, call.name).(pending := Some(call.reading)))
    ensures Tracks(config, after, calls + [call])
    ensures !Kept(ScreenFor(config, call.name), Met(calls, call) + [call.reading])
  {
    NextAccepted(ScreenFor(config, call.name), Met(calls, call), call.reading);
    ScreenedCall(config, before, after, calls, call);
  }

  lemma {:induction false} UnscreenedCall(config: Config, histories: Nested<string, History>, calls: seq<Call>,
                                          call: Call)
    requires Tracks(config, histories, calls) && !Screened(config, call.name)
    ensures Tracks(config, histories, calls + [call])
  {
  }

  /** How one reading changes the accepted values, branch by branch. */
  lemma {:induction false} NextAccepted(c: Screen, past: seq<Reading>, r: Reading)
    ensures NearBaseline(c, past, r.value) ==>
      Kept(c, past + [r]) && AcceptedBy(c, past + [r]) == AcceptedBy(c, past) + [r.value]
    ensures !NearBaseline(c, past, r.value) && ConfirmsPrevious(c, past, r) ==>
      Kept(c, past + [r]) && AcceptedBy(c, past + [r]) == AcceptedBy(c, past) + [Last(past).value, r.value]
    ensures !NearBaseline(c, past, r.value) && !ConfirmsPrevious(c, past, r) ==>
      !Kept(c, past + [r]) && AcceptedBy(c, past + [r]) == AcceptedBy(c, past)
  {
  }

  lemma {:induction false} NextPlain(c: Screen, past: seq<Reading>, r: Reading)
    requires c.size > 0 && NearBaseline(c, past, r.value)
    ensures Kept(c, past + [r])
    ensures HistoryAfter(c, past + [r]) == History(LastN(Window(c, past) + [r.value], c.size), None)
  {
    NextAccepted(c, past, r);
    WindowSlides(AcceptedBy(c, past), r.value, c.size);
  }

  lemma {:induction false} NextConfirmed(c: Screen, past: seq<Reading>, r: Reading)
    requires c.size > 0 && !NearBaseline(c, past, r.value) && ConfirmsPrevious(c, past, r)
    ensures Kept(c, past + [r])
    ensures HistoryAfter(c, past + [r])
      == History(LastN(LastN(Window(c, past) + [Last(past).value], c.size) + [r.value], c.size), None)
  {
    NextAccepted(c, past, r);
    var accepted, p := AcceptedBy(c, past), Last(past).value;
    WindowSlides(accepted, p, c.size);
    WindowSlides(accepted + [p], r.value, c.size);
    assert accepted + [p] + [r.value] == accepted + [p, r.value];
  }

  lemma {:induction false} WindowSlides(accepted: seq<real>, v: real, size: nat)
    requires size > 0
    ensures LastN(LastN(accepted, size) + [v], size) == LastN(accepted + [v], size)
  {
  }

  // ---------------------------------------------------------------- what the filter promises

  /** Flushing a window again after a failed write offers the filter its own pending value. */
  lemma {:induction false} RepeatIsAccepted(c: Screen, past: seq<Reading>, r: Reading)
    requires c.size > 0 && c.threshold >= 0.0 && c.confirmWindow >= 0
    requires !Kept(c, past + [r])
    ensures Kept(c, past + [r] + [r])
  {
  }

  ghost predicate InBand(v: real, lo: real, hi: real) { lo <= v <= hi }

  ghost function BandValues(readings: seq<Reading>, lo: real, hi: real): seq<real> {
    if readings == [] then []
    else
      BandValues(Front(readings), lo, hi)
      + if InBand(Last(readings).value, lo, hi) then [Last(readings).value] else []
  }

  /** Readings that stay in a band no wider than the threshold, with lone far spikes between them. */
  ghost predicate BandWithLoneSpikes(c: Screen, readings: seq<Reading>, lo: real, hi: real) {
    && lo <= hi <= lo + c.threshold
    && (forall i :: 0 <= i < |readings| && i < 3 ==> InBand(readings[i].value, lo, hi))
    && (forall i :: 0 <= i < |readings| && !InBand(readings[i].value, lo, hi) ==>
          readings[i].value < lo - c.threshold || readings[i].value > hi + c.threshold)
    && (forall i :: 0 < i < |readings| ==>
          InBand(readings[i - 1].value, lo, hi) || InBand(readings[i].value, lo, hi))
  }

  /** What makes a reading confirm the one before it: close enough in time and in value. */
  ghost predicate Agree(c: Screen, a: Reading, b: Reading) {
    b.ts - a.ts <= c.confirmWindow && -c.threshold <= b.value - a.value <= c.threshold
  }

  /** A band with far spikes between its readings, of which no two neighbours agree. */
  ghost predicate BandWithSpikes(c: Screen, readings: seq<Reading>, lo: real, hi: real) {
    && lo <= hi <= lo + c.threshold
    && (forall i :: 0 <= i < |readings| && i < 3 ==> InBand(readings[i].value, lo, hi))
    && (forall i :: 0 <= i < |readings| && !InBand(readings[i].value, lo, hi) ==>
          readings[i].value < lo - c.threshold || readings[i].value > hi + c.threshold)
    && (forall i :: 0 < i < |readings| ==>
          InBand(readings[i - 1].value, lo, hi) || InBand(readings[i].value, lo, hi)
          || !Agree(c, readings[i - 1], readings[i]))
  }

  /** Spikes are removed, also several in a row, as long as none agrees with the one before it. */
  lemma {:induction false} SpikesAreRemoved(c: Screen, readings: seq<Reading>, lo: real, hi: real)
    requires c.size >= 3
    requires BandWithSpikes(c, readings, lo, hi)
    ensures readings != [] ==> (Kept(c, readings) <==> InBand(Last(readings).value, lo, hi))
    ensures AcceptedBy(c, readings) == BandValues(readings, lo, hi)
    ensures |AcceptedBy(c, readings)| >= if |readings| < 3 then |readings| else 3
    ensures forall v :: v in AcceptedBy(c, readings) ==> InBand(v, lo, hi)
  {
    if readings == [] {
    } else {
      var past, r := Front(readings), Last(readings);
      SpikesAreRemoved(c, past, lo, hi);
      var window := Window(c, past);
      if |window| >= 3 {
        assert forall v :: v in window ==> v in AcceptedBy(c, past) && InBand(v, lo, hi);
        MedianWithin(window, lo, hi);
      }
      assert past != [] ==> Last(past) == readings[|readings| - 2];
    }
  }

  /** The filter removes exactly the spikes, and its history never contains one. */
  lemma {:induction false} LoneSpikesAreRemoved(c: Screen, readings: seq<Reading>, lo: real, hi: real)
    requires c.size >= 3
    requires BandWithLoneSpikes(c, readings, lo, hi)
    ensures readings != [] ==> (Kept(c, readings) <==> InBand(Last(readings).value, lo, hi))
    ensures AcceptedBy(c, readings) == BandValues(readings, lo, hi)
    ensures |AcceptedBy(c, readings)| >= if |readings| < 3 then |readings| else 3
    ensures forall v :: v in AcceptedBy(c, readings) ==> InBand(v, lo, hi)
  {
    SpikesAreRemoved(c, readings, lo, hi);
  }

  /**
   After such a stream a far reading is accepted iff it agrees with a spike right before
   it, and then both are.
   */
  lemma {:induction false} SpikeIsKeptIffItAgrees(c: Screen, past: seq<Reading>, r: Reading, lo: real, hi: real)
    requires c.size >= 3 && |past| >= 3 && BandWithSpikes(c, past, lo, hi)
    requires r.value < lo - c.threshold || r.value > hi + c.threshold
    ensures Kept(c, past + [r]) <==> !InBand(Last(past).value, lo, hi) && Agree(c, Last(past), r)
    ensures AcceptedBy(c, past + [r])
      == BandValues(past, lo, hi) + if Kept(c, past + [r]) then [Last(past).value, r.value] else []
  {
    SpikesAreRemoved(c, past, lo, hi);
    var window := Window(c, past);
    assert forall v :: v in window ==> v in AcceptedBy(c, past) && InBand(v, lo, hi);
    MedianWithin(window, lo, hi);
    NextAccepted(c, past, r);
  }

  /** Until three values are accepted there is no baseline, and every reading is accepted. */
  lemma {:induction false} FirstThreeAreKept(c: Screen, readings: seq<Reading>)
    requires readings != [] && (|readings| <= 3 || c.size < 3)
    ensures Kept(c, readings) && |AcceptedBy(c, readings)| == |readings|
    ensures forall i :: 0 <= i < |readings| ==> AcceptedBy(c, readings)[i] == readings[i].value
  {
    var past, r := Front(readings), Last(readings);
    if past == [] {
      assert AcceptedBy(c, past) == [];
    } else {
      FirstThreeAreKept(c, past);
    }
    assert |Window(c, past)| < 3 && readings == past + [r];
    NextAccepted(c, past, r);
  }

  /** How many of `next` are withheld when they follow `past`. */
  ghost function Withheld(c: Screen, past: seq<Reading>, next: seq<Reading>): nat {
    if next == [] then 0
    else Withheld(c, past, Front(next)) + if Kept(c, past + next) then 0 else 1
  }

  ghost predicate Steady(c: Screen, next: seq<Reading>, v: real) {
    && (forall i :: 0 <= i < |next| ==> next[i].value == v)
    && (forall i :: 0 < i < |next| ==> next[i].ts - next[i - 1].ts <= c.confirmWindow)
  }

  ghost predicate EndsWith(s: seq<real>, v: real, k: nat) {
    k <= |s| && forall i :: |s| - k <= i < |s| ==> s[i] == v
  }

  /** Once the history ends with more copies of v than half a window, v is accepted outright. */
  lemma {:induction false} MajorityIsNear(c: Screen, past: seq<Reading>, v: real, k: nat)
    requires c.size > 0 && c.threshold >= 0.0
    requires EndsWith(AcceptedBy(c, past), v, k)
    requires 4 * (k / 2) > c.size || 2 * k > |Window(c, past)|
    ensures NearBaseline(c, past, v)
  {
    var window := Window(c, past);
    var copies := if k < |window| then k else |window|;
    if |window| >= 3 {
      CountStretch(window, |window| - copies, |window|, EqualTo(v));
      MajorityIsMedian(window, v);
    }
  }

  /** Convergence: a level that stays is believed after at most size/4 + 1 withheld readings. */
  lemma {:induction false} ConvergenceBound(c: Screen, past: seq<Reading>, next: seq<Reading>, v: real)
    requires c.size > 0 && c.threshold >= 0.0
    requires Steady(c, next, v)
    ensures Withheld(c, past, next) <= c.size / 4 + 1
  {
    SteadyLevelProgress(c, past, next, v);
  }

  lemma {:induction false} SteadyLevelProgress(c: Screen, past: seq<Reading>, next: seq<Reading>, v: real)
    requires c.size > 0 && c.threshold >= 0.0
    requires Steady(c, next, v)
    ensures Withheld(c, past, next) <= c.size / 4 + 1
    ensures next != [] && !Kept(c, past + next) ==>
      Withheld(c, past, next) > 0 && EndsWith(AcceptedBy(c, past + next), v, 2 * (Withheld(c, past, next) - 1))
    ensures next == [] || Kept(c, past + next) ==>
      EndsWith(AcceptedBy(c, past + next), v, 2 * Withheld(c, past, next))
  {
    if next == [] {
    } else {
      var before, r := Front(next), Last(next);
      SteadyLevelProgress(c, past, before, v);
      assert Front(past + next) == past + before && Last(past + next) == r;
      var w := Withheld(c, past, before);
      if before != [] && !Kept(c, past + before) {
        assert Last(past + before) == Last(before) == next[|next| - 2];
        assert ConfirmsPrevious(c, past + before, r);
        if NearBaseline(c, past + before, v) {
          StillWithheld(c, past + before, v);
        }
      } else if !NearBaseline(c, past + before, v) {
        if 4 * w > c.size {
          MajorityIsNear(c, past + before, v, 2 * w);
        }
      }
    }
  }

  /** A value just withheld is still far from the unchanged baseline. */
  lemma {:induction false} StillWithheld(c: Screen, past: seq<Reading>, v: real)
    requires past != [] && !Kept(c, past) && Last(past).value == v
    ensures !NearBaseline(c, past, v)
  {
    assert AcceptedBy(c, past) == AcceptedBy(c, Front(past));
    assert Window(c, past) == Window(c, Front(past));
  }

  /** Half a window of zeros keeps the median at most half way to v. */
  lemma {:induction false} HalfZerosPullMedian(window: seq<real>, v: real, copies: nat)
    requires |window| >= 3 && 2 * copies <= |window| && v >= 0.0
    requires forall i :: 0 <= i < |window| - copies ==> window[i] == 0.0
    requires forall i :: |window| - copies <= i < |window| ==> window[i] == v
    ensures Median(window) <= v / 2.0
  {
    var n, mid := |window|, |window| / 2;
    CountStretch(window, 0, n - copies, AtMost(0.0));
    CountStretch(window, 0, n, AtMost(v));
    if n % 2 == 1 {
      RankAtMost(window, mid, 0.0);
    } else {
      EvenMedianAtMost(window, 0.0, v);
    }
  }

  lemma {:induction false} FarAfterZeros(c: Screen, past: seq<Reading>, v: real, copies: nat)
    requires c.size >= 3 && c.threshold >= 0.0 && v > 2.0 * c.threshold && 2 * copies <= c.size
    requires ZerosThen(AcceptedBy(c, past), c.size, v, copies)
    ensures !NearBaseline(c, past, v)
  {
    HalfZerosPullMedian(Window(c, past), v, copies);
  }

  /** A withheld level, read once more in time, is confirmed and accepted twice. */
  lemma {:induction false} RepeatConfirms(c: Screen, past: seq<Reading>, r: Reading)
    requires c.threshold >= 0.0 && past != [] && !Kept(c, past)
    requires Last(past).value == r.value && r.ts - Last(past).ts <= c.confirmWindow
    ensures Kept(c, past + [r])
    ensures AcceptedBy(c, past + [r]) == AcceptedBy(c, past) + [r.value, r.value]
  {
    StillWithheld(c, past, r.value);
    NextAccepted(c, past, r);
  }

  lemma {:induction false} WithheldNext(c: Screen, past: seq<Reading>, next: seq<Reading>, r: Reading)
    ensures past + (next + [r]) == past + next + [r]
    ensures Withheld(c, past, next + [r]) == Withheld(c, past, next) + if Kept(c, past + next + [r]) then 0 else 1
  {
  }

  /** Where a jump from a history of zeros stands after j withheld readings. */
  ghost predicate Stage(c: Screen, past: seq<Reading>, next: seq<Reading>, v: real, j: nat) {
    && past + next != [] && Kept(c, past + next)
    && Withheld(c, past, next) == j
    && ZerosThen(AcceptedBy(c, past + next), c.size, v, 2 * j)
  }

  lemma {:induction false} StageWithholds(c: Screen, past: seq<Reading>, next: seq<Reading>, v: real, j: nat,
                                          r: Reading)
    requires c.size >= 3 && c.threshold >= 0.0 && v > 2.0 * c.threshold && 4 * j <= c.size
    requires r.value == v && Stage(c, past, next, v, j)
    ensures !Kept(c, past + next + [r]) && Withheld(c, past, next + [r]) == j + 1
    ensures AcceptedBy(c, past + next + [r]) == AcceptedBy(c, past + next)
  {
    FarAfterZeros(c, past + next, v, 2 * j);
    NextAccepted(c, past + next, r);
    WithheldNext(c, past, next, r);
  }

  /** One withheld reading and its confirmation. */
  lemma {:induction false} NextStage(c: Screen, past: seq<Reading>, next: seq<Reading>, v: real, j: nat, r1: Reading,
                                     r2: Reading)
    requires c.size >= 3 && c.threshold >= 0.0 && v > 2.0 * c.threshold && 4 * j <= c.size
    requires r1.value == v && r2.value == v && r2.ts - r1.ts <= c.confirmWindow
    requires Stage(c, past, next, v, j)
    ensures Stage(c, past, next + [r1] + [r2], v, j + 1)
  {
    var once := past + next + [r1];
    StageWithholds(c, past, next, v, j, r1);
    RepeatConfirms(c, once, r2);
    assert past + (next + [r1]) == once;
    WithheldNext(c, past, next + [r1], r2);
    assert past + (next + [r1] + [r2]) == once + [r2];
  }

  /** From a full history of zeros, every second reading of a far level is withheld for a while. */
  lemma {:induction false} EverySecondIsWithheld(c: Screen, past: seq<Reading>, next: seq<Reading>, v: real, j: nat)
    requires c.size >= 3 && c.threshold >= 0.0 && v > 2.0 * c.threshold
    requires Stage(c, past, [], v, 0)
    requires Steady(c, next, v) && |next| == 2 * j && 4 * (j - 1) <= c.size
    ensures Stage(c, past, next, v, j)
  {
    if j == 0 {
      assert next == [];
    } else {
      var n := |next|;
      EverySecondIsWithheld(c, past, next[..n - 2], v, j - 1);
      NextStage(c, past, next[..n - 2], v, j - 1, next[n - 2], next[n - 1]);
      assert next[..n - 2] + [next[n - 2]] + [next[n - 1]] == next;
    }
  }

  ghost predicate Zeros(s: seq<real>, n: nat) {
    |s| == n && forall i :: 0 <= i < n ==> s[i] == 0.0
  }

  ghost predicate ZerosThen(s: seq<real>, n: nat, v: real, k: nat) {
    && |s| == n + k
    && (forall i :: 0 <= i < n ==> s[i] == 0.0)
    && (forall i :: n <= i < n + k ==> s[i] == v)
  }

  lemma {:induction false} WithheldGrows(c: Screen, past: seq<Reading>, next: seq<Reading>, more: seq<Reading>)
    ensures Withheld(c, past, next) <= Withheld(c, past, next + more)
  {
    if more == [] {
      assert next + more == next;
    } else {
      WithheldGrows(c, past, next, Front(more));
      assert Front(next + more) == next + Front(more);
    }
  }

  /** The convergence bound cannot be lowered, for any history size the filter judges with. */
  lemma {:induction false} ConvergenceBoundIsAttained(c: Screen, past: seq<Reading>, next: seq<Reading>, v: real)
    requires c.size >= 3 && c.threshold >= 0.0 && v > 2.0 * c.threshold
    requires Zeros(AcceptedBy(c, past), c.size) && past != [] && Kept(c, past)
    requires Steady(c, next, v) && |next| >= 2 * (c.size / 4) + 1
    ensures Withheld(c, past, next) == c.size / 4 + 1
  {
    var k := 2 * (c.size / 4);
    ConvergenceBound(c, past, next, v);
    JumpWithholds(c, past, next[..k], v, next[k]);
    assert next == next[..k] + [next[k]] + next[k + 1..];
    WithheldGrows(c, past, next[..k] + [next[k]], next[k + 1..]);
  }

  lemma {:induction false} JumpWithholds(c: Screen, past: seq<Reading>, next: seq<Reading>, v: real, r: Reading)
    requires c.size >= 3 && c.threshold >= 0.0 && v > 2.0 * c.threshold
    requires Zeros(AcceptedBy(c, past), c.size) && past != [] && Kept(c, past)
    requires Steady(c, next, v) && |next| == 2 * (c.size / 4) && r.value == v
    ensures Withheld(c, past, next + [r]) == c.size / 4 + 1
  {
    assert past + [] == past;
    EverySecondIsWithheld(c, past, next, v, c.size / 4);
    StageWithholds(c, past, next, v, c.size / 4, r);
  }

  /** Such histories exist: the filter reaches one by reading zero size times. */
  lemma {:induction false} ZeroReadingsFillHistory(c: Screen, n: nat)
    requires c.size >= 3 && c.threshold >= 0.0
    ensures Zeros(AcceptedBy(c, seq(n, i => Reading(i, 0.0))), n)
    ensures n > 0 ==> Kept(c, seq(n, i => Reading(i, 0.0)))
  {
    var readings := seq(n, i => Reading(i, 0.0));
    if n == 0 {
    } else {
      ZeroReadingsFillHistory(c, n - 1);
      assert Front(readings) == seq(n - 1, i => Reading(i, 0.0));
      NextAccepted(c, Front(readings), Last(readings));
      assert readings == Front(readings) + [Last(readings)];
      var window := Window(c, Front(readings));
      if |window| >= 3 {
        MedianWithin(window, 0.0, 0.0);
      }
    }
  }
}
