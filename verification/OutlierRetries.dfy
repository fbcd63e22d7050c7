/**
 What failed writes do to the outlier filter (cmd/hm-ble-collector/main.go:638-733). A
 window whose write fails stays open and is flushed again, so the filter meets its
 medians once more for every failure.
 */
module OutlierRetries {
  import opened Minutes
  import opened OrderStatistics
  import opened OutlierFilter
  import opened OutlierFlush
  import opened OutlierRepeats
  import SampleAggregation
  import opened SensorStore
  import opened Sequences
  import opened Text
  import opened Wrappers

  // ---------------------------------------------------------------- windows flushed until written

  /** A window, and how many of its writes fail before one succeeds. */
  datatype Flushed = Flushed(window: Attempt, failures: nat)

  function Failed(a: Attempt): Attempt { a.(failed := true) }

  function Written(a: Attempt): Attempt { a.(failed := false) }

  function AttemptsOf(plan: seq<Flushed>): seq<Attempt> {
    if plan == [] then []
    else AttemptsOf(Front(plan)) + Repeat(Failed(Last(plan).window), Last(plan).failures) + [Written(Last(plan).window)]
  }

  predicate Concerns(a: Attempt, mac: string, name: string) { a.mac == mac && name in a.medians }

  function ReadingOf(a: Attempt, name: string): Reading
    requires name in a.medians
  {
    OutlierFilter.Reading(a.window, a.medians[name])
  }

  /** The medians of one sensor and metric, each once, whatever the writes did. */
  function Medians(plan: seq<Flushed>, mac: string, name: string): seq<Reading> {
    if plan == [] then []
    else
      var before, a := Medians(Front(plan), mac, name), Last(plan).window;
      if Concerns(a, mac, name) then before + [ReadingOf(a, name)] else before
  }

  ghost predicate IsSpike(a: Attempt, mac: string, name: string, lo: real, hi: real) {
    Concerns(a, mac, name) && !InBand(a.medians[name], lo, hi)
  }

  /** The readings that the filter meets, retries included. */
  ghost function Offered(names: seq<string>, plan: seq<Flushed>, mac: string, name: string): seq<Reading> {
    ReadingsOf(CallsOf(names, AttemptsOf(plan)), mac, name)
  }

  lemma {:induction false} ReadingsNext(names: seq<string>, attempts: seq<Attempt>, a: Attempt, mac: string,
                                        name: string)
    requires Distinct(names) && name in names
    ensures ReadingsOf(CallsOf(names, attempts + [a]), mac, name)
      == ReadingsOf(CallsOf(names, attempts), mac, name) + if Concerns(a, mac, name) then [ReadingOf(a, name)] else []
  {
    assert Front(attempts + [a]) == attempts && Last(attempts + [a]) == a;
    ReadingsAfter(names, attempts + [a], mac, name);
  }

  /** A window that is tried n times offers its median n times. */
  lemma {:induction false} ReadingsRepeat(names: seq<string>, attempts: seq<Attempt>, a: Attempt, n: nat, mac: string,
                                          name: string)
    requires Distinct(names) && name in names
    ensures ReadingsOf(CallsOf(names, attempts + Repeat(a, n)), mac, name)
      == ReadingsOf(CallsOf(names, attempts), mac, name)
        + if Concerns(a, mac, name) then Repeat(ReadingOf(a, name), n) else []
  {
    if n == 0 {
      assert attempts + Repeat(a, 0) == attempts;
    } else {
      ReadingsRepeat(names, attempts, a, n - 1, mac, name);
      OneMore(attempts, a, n - 1);
      ReadingsNext(names, attempts + Repeat(a, n - 1), a, mac, name);
      if Concerns(a, mac, name) {
        OneMore(ReadingsOf(CallsOf(names, attempts), mac, name), ReadingOf(a, name), n - 1);
      }
    }
  }

  lemma {:induction false} OfferedNext(names: seq<string>, plan: seq<Flushed>, mac: string, name: string, f: Flushed)
    requires Distinct(names) && name in names && plan != [] && f == Last(plan)
    ensures Offered(names, plan, mac, name) == Offered(names, Front(plan), mac, name)
      + if Concerns(f.window, mac, name) then Repeat(ReadingOf(f.window, name), f.failures + 1) else []
  {
    var before := AttemptsOf(Front(plan));
    ReadingsRepeat(names, before, Failed(f.window), f.failures, mac, name);
    ReadingsNext(names, before + Repeat(Failed(f.window), f.failures), Written(f.window), mac, name);
    if Concerns(f.window, mac, name) {
      OneMore(Offered(names, Front(plan), mac, name), ReadingOf(f.window, name), f.failures);
    }
  }

  // ---------------------------------------------------------------- bands grow at their end

  ghost predicate Joins(c: Screen, readings: seq<Reading>, r: Reading, lo: real, hi: real) {
    && (|readings| < 3 ==> InBand(r.value, lo, hi))
    && (InBand(r.value, lo, hi) || IsFar(c, r.value, lo, hi))
    && (readings != [] ==> InBand(Last(readings).value, lo, hi) || InBand(r.value, lo, hi))
  }

  lemma {:induction false} BandGrows(c: Screen, readings: seq<Reading>, r: Reading, lo: real, hi: real)
    requires lo <= hi <= lo + c.threshold
    ensures BandWithLoneSpikes(c, readings + [r], lo, hi)
      <==> BandWithLoneSpikes(c, readings, lo, hi) && Joins(c, readings, r, lo, hi)
  {
    var all := readings + [r];
    assert forall i :: 0 <= i < |readings| ==> all[i] == readings[i];
    if BandWithLoneSpikes(c, all, lo, hi) {
      assert all[|readings|] == r;
      assert readings != [] ==> all[|readings| - 1] == Last(readings);
    }
  }

  /** The medians of one sensor and metric form a band with lone spikes. */
  ghost predicate PlanInBand(config: Config, names: seq<string>, plan: seq<Flushed>, mac: string, name: string,
                             lo: real, hi: real) {
    && Distinct(names) && name in names && name != LUX
    && Screened(config, name) && config.historySize >= 3
    && BandWithLoneSpikes(ScreenFor(config, name), Medians(plan, mac, name), lo, hi)
  }

  ghost predicate SpikeFails(f: Flushed, mac: string, name: string, lo: real, hi: real) {
    IsSpike(f.window, mac, name, lo, hi) && f.failures > 0
  }

  ghost predicate SomeSpikeFails(plan: seq<Flushed>, mac: string, name: string, lo: real, hi: real) {
    exists i :: 0 <= i < |plan| && SpikeFails(plan[i], mac, name, lo, hi)
  }

  lemma {:induction false} PlanBefore(config: Config, names: seq<string>, plan: seq<Flushed>, mac: string, name: string,
                                      lo: real, hi: real)
    requires plan != [] && PlanInBand(config, names, plan, mac, name, lo, hi)
    ensures PlanInBand(config, names, Front(plan), mac, name, lo, hi)
    ensures Concerns(Last(plan).window, mac, name) ==>
      Joins(ScreenFor(config, name), Medians(Front(plan), mac, name), ReadingOf(Last(plan).window, name), lo, hi)
  {
    if Concerns(Last(plan).window, mac, name) {
      BandGrows(ScreenFor(config, name), Medians(Front(plan), mac, name), ReadingOf(Last(plan).window, name), lo, hi);
    }
  }

  // ---------------------------------------------------------------- what the filter believes

  /**
   What the filter accepts from a plan that stays quiet: band values as often as they are
   offered, spikes once for every failure.
   */
  ghost function Believed(plan: seq<Flushed>, mac: string, name: string, lo: real, hi: real): seq<real> {
    if plan == [] then []
    else
      var before, f := Believed(Front(plan), mac, name, lo, hi), Last(plan);
      if Concerns(f.window, mac, name) then before + Taken(f.window.medians[name], f.failures, lo, hi) else before
  }

  ghost function Taken(v: real, failures: nat, lo: real, hi: real): seq<real> {
    Repeat(v, if InBand(v, lo, hi) then failures + 1 else failures)
  }

  /** An even number of failures, whose copies leave the band the majority of the window. */
  ghost predicate IsQuiet(c: Screen, accepted: seq<real>, f: Flushed, mac: string, name: string, lo: real, hi: real) {
    IsSpike(f.window, mac, name, lo, hi) ==>
      f.failures % 2 == 0 && BandRules(c, accepted + Repeat(f.window.medians[name], f.failures), lo, hi)
  }

  ghost predicate QuietPlan(c: Screen, plan: seq<Flushed>, mac: string, name: string, lo: real, hi: real) {
    plan == []
    || (QuietPlan(c, Front(plan), mac, name, lo, hi)
        && IsQuiet(c, Believed(Front(plan), mac, name, lo, hi), Last(plan), mac, name, lo, hi))
  }

  /** What the filter met, what was measured, and what the filter accepted. */
  ghost predicate InStep(c: Screen, offered: seq<Reading>, medians: seq<Reading>, believed: seq<real>, lo: real,
                         hi: real) {
    && AcceptedBy(c, offered) == believed
    && (believed == [] || BandRules(c, believed, lo, hi))
    && |believed| >= (if |medians| < 3 then |medians| else 3)
    && (medians == [] <==> offered == [])
    && (medians != [] ==> Last(offered) == Last(medians))
    && (medians != [] && InBand(Last(medians).value, lo, hi) ==> Kept(c, offered))
  }

  lemma {:induction false} BandReading(c: Screen, offered: seq<Reading>, r: Reading, lo: real, hi: real)
    requires c.size >= 3 && lo <= hi <= lo + c.threshold && InBand(r.value, lo, hi)
    requires AcceptedBy(c, offered) == [] || BandRules(c, AcceptedBy(c, offered), lo, hi)
    ensures Kept(c, offered + [r]) && AcceptedBy(c, offered + [r]) == AcceptedBy(c, offered) + [r.value]
    ensures BandRules(c, AcceptedBy(c, offered + [r]), lo, hi)
  {
    var accepted := AcceptedBy(c, offered);
    NearIsNearBaseline(c, offered, r.value);
    if accepted == [] {
      AllInBandRules(c, accepted + [r.value], lo, hi);
    } else {
      BandDecides(c, accepted, r.value, lo, hi);
      BandStays(c, accepted, r.value, lo, hi);
    }
    NextAccepted(c, offered, r);
  }

  lemma {:induction false} BandReadings(c: Screen, offered: seq<Reading>, r: Reading, n: nat, lo: real, hi: real)
    requires c.size >= 3 && lo <= hi <= lo + c.threshold && InBand(r.value, lo, hi)
    requires AcceptedBy(c, offered) == [] || BandRules(c, AcceptedBy(c, offered), lo, hi)
    ensures Kept(c, offered + Repeat(r, n + 1))
    ensures AcceptedBy(c, offered + Repeat(r, n + 1)) == AcceptedBy(c, offered) + Repeat(r.value, n + 1)
    ensures BandRules(c, AcceptedBy(c, offered + Repeat(r, n + 1)), lo, hi)
  {
    OneMore(offered, r, n);
    OneMore(AcceptedBy(c, offered), r.value, n);
    if n == 0 {
      assert offered + Repeat(r, 0) == offered;
      assert AcceptedBy(c, offered) + Repeat(r.value, 0) == AcceptedBy(c, offered);
    } else {
      BandReadings(c, offered, r, n - 1, lo, hi);
    }
    BandReading(c, offered + Repeat(r, n), r, lo, hi);
  }

  /** A spike after quiet windows: what its retries come to. */
  lemma {:induction false} SpikeReadings(c: Screen, offered: seq<Reading>, medians: seq<Reading>, believed: seq<real>,
                                         r: Reading, n: nat, lo: real, hi: real)
    requires c.size >= 3 && c.confirmWindow >= 0 && lo <= hi <= lo + c.threshold
    requires InStep(c, offered, medians, believed, lo, hi)
    requires Joins(c, medians, r, lo, hi) && !InBand(r.value, lo, hi)
    ensures Kept(c, offered + Repeat(r, n + 1)) == PassesAfter(n, IsNear(c, believed + Repeat(r.value, n), r.value))
    ensures AcceptedBy(c, offered + Repeat(r, n + 1))
      == believed + Repeat(r.value, if Kept(c, offered + Repeat(r, n + 1)) then n + 1 else n)
  {
    assert Kept(c, offered) && !ConfirmsPrevious(c, offered, r);
    RetriesUntilNear(c, offered, r, n, lo, hi);
  }

  lemma {:induction false} QuietSpike(c: Screen, offered: seq<Reading>, medians: seq<Reading>, believed: seq<real>,
                                      r: Reading, n: nat, lo: real, hi: real)
    requires c.size >= 3 && c.confirmWindow >= 0 && lo <= hi <= lo + c.threshold
    requires InStep(c, offered, medians, believed, lo, hi)
    requires Joins(c, medians, r, lo, hi) && !InBand(r.value, lo, hi)
    requires n % 2 == 0 && BandRules(c, believed + Repeat(r.value, n), lo, hi)
    ensures !Kept(c, offered + Repeat(r, n + 1)) && !PassesAfter(n, IsNear(c, believed + Repeat(r.value, n), r.value))
    ensures AcceptedBy(c, offered + Repeat(r, n + 1)) == believed + Repeat(r.value, n)
  {
    BandDecides(c, believed + Repeat(r.value, n), r.value, lo, hi);
    SpikeReadings(c, offered, medians, believed, r, n, lo, hi);
  }

  lemma {:induction false} InStepNext(c: Screen, offered: seq<Reading>, medians: seq<Reading>, believed: seq<real>,
                                      r: Reading, n: nat, lo: real, hi: real)
    requires c.size >= 3 && c.confirmWindow >= 0 && lo <= hi <= lo + c.threshold
    requires InStep(c, offered, medians, believed, lo, hi) && Joins(c, medians, r, lo, hi)
    requires InBand(r.value, lo, hi) || (n % 2 == 0 && BandRules(c, believed + Repeat(r.value, n), lo, hi))
    ensures InStep(c, offered + Repeat(r, n + 1), medians + [r], believed + Taken(r.value, n, lo, hi), lo, hi)
  {
    if InBand(r.value, lo, hi) {
      BandReadings(c, offered, r, n, lo, hi);
    } else {
      QuietSpike(c, offered, medians, believed, r, n, lo, hi);
    }
  }

  /** While a plan stays quiet, the filter accepts exactly what is believed. */
  lemma {:induction false} QuietPlanIsInStep(config: Config, names: seq<string>, plan: seq<Flushed>, mac: string,
                                             name: string, lo: real, hi: real)
    requires PlanInBand(config, names, plan, mac, name, lo, hi) && config.confirmWindow >= 0
    requires QuietPlan(ScreenFor(config, name), plan, mac, name, lo, hi)
    ensures InStep(ScreenFor(config, name), Offered(names, plan, mac, name), Medians(plan, mac, name),
                   Believed(plan, mac, name, lo, hi), lo, hi)
  {
    if plan == [] {
    } else {
      var c, before, f := ScreenFor(config, name), Front(plan), Last(plan);
      PlanBefore(config, names, plan, mac, name, lo, hi);
      QuietPlanIsInStep(config, names, before, mac, name, lo, hi);
      OfferedNext(names, plan, mac, name, f);
      if Concerns(f.window, mac, name) {
        InStepNext(c, Offered(names, before, mac, name), Medians(before, mac, name),
                   Believed(before, mac, name, lo, hi), ReadingOf(f.window, name), f.failures, lo, hi);
      } else {
        assert Offered(names, before, mac, name) + [] == Offered(names, before, mac, name);
      }
    }
  }

  /** Where no spike's write fails, a plan is quiet and only band values are believed. */
  lemma {:induction false} NoFailureIsQuiet(config: Config, names: seq<string>, plan: seq<Flushed>, mac: string,
                                            name: string, lo: real, hi: real)
    requires PlanInBand(config, names, plan, mac, name, lo, hi) && config.confirmWindow >= 0
    requires !SomeSpikeFails(plan, mac, name, lo, hi)
    ensures QuietPlan(ScreenFor(config, name), plan, mac, name, lo, hi)
    ensures AllInBand(Believed(plan, mac, name, lo, hi), lo, hi)
  {
    if plan == [] {
    } else {
      var c, before, f := ScreenFor(config, name), Front(plan), Last(plan);
      PlanBefore(config, names, plan, mac, name, lo, hi);
      assert !SomeSpikeFails(before, mac, name, lo, hi) by {
        assert forall i :: 0 <= i < |before| ==> before[i] == plan[i];
      }
      NoFailureIsQuiet(config, names, before, mac, name, lo, hi);
      QuietPlanIsInStep(config, names, before, mac, name, lo, hi);
      assert !SpikeFails(plan[|plan| - 1], mac, name, lo, hi);
      if IsSpike(f.window, mac, name, lo, hi) {
        var believed := Believed(before, mac, name, lo, hi);
        AllInBandRules(c, believed, lo, hi);
        assert believed + Repeat(f.window.medians[name], 0) == believed;
      }
    }
  }

  // ---------------------------------------------------------------- when a spike passes

  /** The spike's last, successful flush finds it accepted. */
  ghost predicate SpikePasses(config: Config, names: seq<string>, plan: seq<Flushed>, f: Flushed, mac: string,
                              name: string, lo: real, hi: real) {
    && IsSpike(f.window, mac, name, lo, hi)
    && Passes(config, CallsOf(names, FailuresOf(plan, f)), Written(f.window), name)
  }

  /** Everything up to the last flush of a window. */
  function FailuresOf(plan: seq<Flushed>, f: Flushed): seq<Attempt> {
    AttemptsOf(plan) + Repeat(Failed(f.window), f.failures)
  }

  /** After quiet windows, a spike passes at last iff it failed an odd number of times or its copies made it near. */
  lemma {:induction false} SpikePassesIffOddOrNear(config: Config, names: seq<string>, plan: seq<Flushed>, f: Flushed,
                                                   mac: string, name: string, lo: real, hi: real)
    requires PlanInBand(config, names, plan + [f], mac, name, lo, hi) && config.confirmWindow >= 0
    requires QuietPlan(ScreenFor(config, name), plan, mac, name, lo, hi) && IsSpike(f.window, mac, name, lo, hi)
    ensures
      var v, c := f.window.medians[name], ScreenFor(config, name);
      SpikePasses(config, names, plan, f, mac, name, lo, hi)
      == PassesAfter(f.failures, IsNear(c, Believed(plan, mac, name, lo, hi) + Repeat(v, f.failures), v))
    ensures IsQuiet(ScreenFor(config, name), Believed(plan, mac, name, lo, hi), f, mac, name, lo, hi) ==>
      !SpikePasses(config, names, plan, f, mac, name, lo, hi)
  {
    var c, r, offered := ScreenFor(config, name), ReadingOf(f.window, name), Offered(names, plan, mac, name);
    var medians, believed := Medians(plan, mac, name), Believed(plan, mac, name, lo, hi);
    assert Front(plan + [f]) == plan && Last(plan + [f]) == f;
    PlanBefore(config, names, plan + [f], mac, name, lo, hi);
    QuietPlanIsInStep(config, names, plan, mac, name, lo, hi);
    SpikeReadings(c, offered, medians, believed, r, f.failures, lo, hi);
    ReadingsRepeat(names, AttemptsOf(plan), Failed(f.window), f.failures, mac, name);
    OneMore(offered, r, f.failures);
    if IsQuiet(c, believed, f, mac, name, lo, hi) {
      QuietSpike(c, offered, medians, believed, r, f.failures, lo, hi);
    }
  }

  ghost predicate SomeSpikePasses(config: Config, names: seq<string>, plan: seq<Flushed>, mac: string, name: string,
                                  lo: real, hi: real) {
    exists i :: 0 <= i < |plan| && SpikePasses(config, names, plan[..i], plan[i], mac, name, lo, hi)
  }

  lemma {:induction false} SomeSpikePassesNext(config: Config, names: seq<string>, plan: seq<Flushed>, mac: string,
                                               name: string, lo: real, hi: real)
    requires plan != []
    ensures SomeSpikePasses(config, names, plan, mac, name, lo, hi)
      <==> (SomeSpikePasses(config, names, Front(plan), mac, name, lo, hi)
            || SpikePasses(config, names, Front(plan), Last(plan), mac, name, lo, hi))
  {
    var before := Front(plan);
    assert forall i :: 0 <= i < |before| ==> before[..i] == plan[..i] && before[i] == plan[i];
    if SomeSpikePasses(config, names, plan, mac, name, lo, hi) {
      var i :| 0 <= i < |plan| && SpikePasses(config, names, plan[..i], plan[i], mac, name, lo, hi);
      assert i < |before| ==> SpikePasses(config, names, before[..i], before[i], mac, name, lo, hi);
    }
    if SomeSpikePasses(config, names, before, mac, name, lo, hi) {
      var i :| 0 <= i < |before| && SpikePasses(config, names, before[..i], before[i], mac, name, lo, hi);
      assert SpikePasses(config, names, plan[..i], plan[i], mac, name, lo, hi);
    }
    assert plan[..|plan| - 1] == before;
  }

  lemma {:induction false} QuietPlanPassesNoSpike(config: Config, names: seq<string>, plan: seq<Flushed>, mac: string,
                                                  name: string, lo: real, hi: real)
    requires PlanInBand(config, names, plan, mac, name, lo, hi) && config.confirmWindow >= 0
    requires QuietPlan(ScreenFor(config, name), plan, mac, name, lo, hi)
    ensures !SomeSpikePasses(config, names, plan, mac, name, lo, hi)
  {
    if plan == [] {
    } else {
      PlanBefore(config, names, plan, mac, name, lo, hi);
      QuietPlanPassesNoSpike(config, names, Front(plan), mac, name, lo, hi);
      assert Front(plan) + [Last(plan)] == plan;
      if IsSpike(Last(plan).window, mac, name, lo, hi) {
        SpikePassesIffOddOrNear(config, names, Front(plan), Last(plan), mac, name, lo, hi);
      }
      SomeSpikePassesNext(config, names, plan, mac, name, lo, hi);
    }
  }

  // ---------------------------------------------------------------- when a spike is stored

  /** At some moment a column of the sensor and metric holds a value outside the band. */
  ghost predicate SpikeIsStored(config: Config, names: seq<string>, attempts: seq<Attempt>, mac: string, name: string,
                                lo: real, hi: real)
  {
    exists n, ts :: 0 <= n <= |attempts| && HoldsSpike(config, names, attempts[..n], Key(ts, mac), name, lo, hi)
  }

  ghost predicate HoldsSpike(config: Config, names: seq<string>, attempts: seq<Attempt>, key: Key, name: string,
                             lo: real, hi: real) {
    var stored := Stored(config, names, attempts, key, name);
    stored.Some? && !InBand(stored.value, lo, hi)
  }

  lemma {:induction false} StoredEarlier(config: Config, names: seq<string>, before: seq<Attempt>,
                                         attempts: seq<Attempt>, mac: string, name: string, lo: real, hi: real)
    requires before <= attempts && SpikeIsStored(config, names, before, mac, name, lo, hi)
    ensures SpikeIsStored(config, names, attempts, mac, name, lo, hi)
  {
    var n, ts :| 0 <= n <= |before| && HoldsSpike(config, names, before[..n], Key(ts, mac), name, lo, hi);
    assert before[..n] == attempts[..n];
  }

  lemma {:induction false} FailureWritesNothing(config: Config, names: seq<string>, attempts: seq<Attempt>, a: Attempt,
                                                key: Key, name: string)
    requires a.failed
    ensures Stored(config, names, attempts + [a], key, name) == Stored(config, names, attempts, key, name)
  {
    assert Front(attempts + [a]) == attempts && Last(attempts + [a]) == a;
    StoredAfter(config, names, attempts + [a], key, name, a);
  }

  lemma {:induction false} FailuresWriteNothing(config: Config, names: seq<string>, attempts: seq<Attempt>, a: Attempt,
                                                n: nat, key: Key, name: string)
    requires a.failed
    ensures Stored(config, names, attempts + Repeat(a, n), key, name) == Stored(config, names, attempts, key, name)
  {
    if n == 0 {
      assert attempts + Repeat(a, 0) == attempts;
    } else {
      FailuresWriteNothing(config, names, attempts, a, n - 1, key, name);
      OneMore(attempts, a, n - 1);
      FailureWritesNothing(config, names, attempts + Repeat(a, n - 1), a, key, name);
    }
  }

  lemma {:induction false} WrittenIfPassed(config: Config, names: seq<string>, attempts: seq<Attempt>, a: Attempt,
                                           key: Key, name: string)
    requires !a.failed && key == StoredAt(a) && name in a.medians && name != LUX
    ensures Stored(config, names, attempts + [a], key, name) ==
      if Passes(config, CallsOf(names, attempts), a, name) then Some(a.medians[name])
      else Stored(config, names, attempts, key, name)
  {
    assert Front(attempts + [a]) == attempts && Last(attempts + [a]) == a;
    StoredAfter(config, names, attempts + [a], key, name, a);
  }

  /** The last flush of a window brings a spike into a row only if the spike passes. */
  lemma {:induction false} RowAfterWindow(config: Config, names: seq<string>, plan: seq<Flushed>, f: Flushed, key: Key,
                                          name: string, lo: real, hi: real)
    requires name != LUX && NormalizeMAC(f.window.mac) == f.window.mac
    requires HoldsSpike(config, names, FailuresOf(plan, f) + [Written(f.window)], key, name, lo, hi)
    ensures HoldsSpike(config, names, AttemptsOf(plan), key, name, lo, hi)
      || SpikePasses(config, names, plan, f, key.mac, name, lo, hi)
  {
    var failing, a := FailuresOf(plan, f), Written(f.window);
    FailuresWriteNothing(config, names, AttemptsOf(plan), Failed(f.window), f.failures, key, name);
    if key == StoredAt(a) && name in a.medians {
      WrittenIfPassed(config, names, failing, a, key, name);
    } else {
      assert Front(failing + [a]) == failing && Last(failing + [a]) == a;
      StoredAfter(config, names, failing + [a], key, name, a);
    }
  }

  /** A spike's own row after its last flush. */
  lemma {:induction false} RowOfSpike(config: Config, names: seq<string>, plan: seq<Flushed>, f: Flushed, mac: string,
                                      name: string, lo: real, hi: real)
    requires name != LUX && IsSpike(f.window, mac, name, lo, hi)
    ensures var key := StoredAt(Written(f.window));
      Stored(config, names, AttemptsOf(plan + [f]), key, name)
      == if SpikePasses(config, names, plan, f, mac, name, lo, hi) then Some(f.window.medians[name])
        else Stored(config, names, AttemptsOf(plan), key, name)
  {
    var key := StoredAt(Written(f.window));
    assert Front(plan + [f]) == plan && Last(plan + [f]) == f;
    FailuresWriteNothing(config, names, AttemptsOf(plan), Failed(f.window), f.failures, key, name);
    WrittenIfPassed(config, names, FailuresOf(plan, f), Written(f.window), key, name);
  }

  lemma {:induction false} StoredByPassing(config: Config, names: seq<string>, plan: seq<Flushed>, f: Flushed,
                                           mac: string, name: string, lo: real, hi: real)
    requires name != LUX && NormalizeMAC(f.window.mac) == f.window.mac
    requires SpikePasses(config, names, plan, f, mac, name, lo, hi)
    ensures SpikeIsStored(config, names, FailuresOf(plan, f) + [Written(f.window)], mac, name, lo, hi)
  {
    var key := StoredAt(Written(f.window));
    WrittenIfPassed(config, names, FailuresOf(plan, f), Written(f.window), key, name);
    HoldsNow(config, names, FailuresOf(plan, f) + [Written(f.window)], key, name, lo, hi);
  }

  lemma {:induction false} HoldsNow(config: Config, names: seq<string>, attempts: seq<Attempt>, key: Key, name: string,
                                    lo: real, hi: real)
    requires HoldsSpike(config, names, attempts, key, name, lo, hi)
    ensures SpikeIsStored(config, names, attempts, key.mac, name, lo, hi)
  {
    assert attempts[..|attempts|] == attempts && key == Key(key.ts, key.mac);
  }

  /** While a window's write fails, no row changes. */
  lemma {:induction false} RowAmongFailures(config: Config, names: seq<string>, plan: seq<Flushed>, f: Flushed, k: nat,
                                            prefix: seq<Attempt>, key: Key, name: string, lo: real, hi: real)
    requires prefix == AttemptsOf(plan) + Repeat(Failed(f.window), k)
    requires HoldsSpike(config, names, prefix, key, name, lo, hi)
    ensures SpikeIsStored(config, names, AttemptsOf(plan), key.mac, name, lo, hi)
  {
    FailuresWriteNothing(config, names, AttemptsOf(plan), Failed(f.window), k, key, name);
    HoldsNow(config, names, AttemptsOf(plan), key, name, lo, hi);
  }

  /** The prefixes of a plan's attempts, by the window in which they end. */
  lemma {:induction false} PrefixOf(before: seq<Attempt>, failed: Attempt, failures: nat, last: Attempt, n: nat)
    requires n <= |before| + failures + 1
    ensures var attempts := before + Repeat(failed, failures) + [last];
      attempts[..n] == if n <= |before| then before[..n]
                       else if n <= |before| + failures then before + Repeat(failed, n - |before|) else attempts
  {
  }

  lemma {:induction false} PrefixHolds(config: Config, names: seq<string>, plan: seq<Flushed>, f: Flushed,
                                       attempts: seq<Attempt>, n: nat, key: Key, name: string, lo: real, hi: real)
    requires name != LUX && NormalizeMAC(f.window.mac) == f.window.mac
    requires attempts == FailuresOf(plan, f) + [Written(f.window)] && n <= |attempts|
    requires HoldsSpike(config, names, attempts[..n], key, name, lo, hi)
    ensures SpikeIsStored(config, names, AttemptsOf(plan), key.mac, name, lo, hi)
      || SpikePasses(config, names, plan, f, key.mac, name, lo, hi)
  {
    var before, prefix := AttemptsOf(plan), attempts[..n];
    PrefixOf(before, Failed(f.window), f.failures, Written(f.window), n);
    if n <= |before| {
      HeldEarlier(config, names, before, prefix, key, name, lo, hi);
    } else if n <= |before| + f.failures {
      RowAmongFailures(config, names, plan, f, n - |before|, prefix, key, name, lo, hi);
    } else {
      HeldAtLast(config, names, plan, f, prefix, key, name, lo, hi);
    }
  }

  lemma {:induction false} HeldEarlier(config: Config, names: seq<string>, attempts: seq<Attempt>,
                                       prefix: seq<Attempt>, key: Key, name: string, lo: real, hi: real)
    requires prefix <= attempts && HoldsSpike(config, names, prefix, key, name, lo, hi)
    ensures SpikeIsStored(config, names, attempts, key.mac, name, lo, hi)
  {
    HoldsNow(config, names, prefix, key, name, lo, hi);
    StoredEarlier(config, names, prefix, attempts, key.mac, name, lo, hi);
  }

  lemma {:induction false} HeldAtLast(config: Config, names: seq<string>, plan: seq<Flushed>, f: Flushed,
                                      prefix: seq<Attempt>, key: Key, name: string, lo: real, hi: real)
    requires name != LUX && NormalizeMAC(f.window.mac) == f.window.mac
    requires prefix == FailuresOf(plan, f) + [Written(f.window)]
    requires HoldsSpike(config, names, prefix, key, name, lo, hi)
    ensures SpikeIsStored(config, names, AttemptsOf(plan), key.mac, name, lo, hi)
      || SpikePasses(config, names, plan, f, key.mac, name, lo, hi)
  {
    RowAfterWindow(config, names, plan, f, key, name, lo, hi);
    if HoldsSpike(config, names, AttemptsOf(plan), key, name, lo, hi) {
      HoldsNow(config, names, AttemptsOf(plan), key, name, lo, hi);
    }
  }

  ghost predicate Normalized(plan: seq<Flushed>) {
    forall i :: 0 <= i < |plan| ==> NormalizeMAC(plan[i].window.mac) == plan[i].window.mac
  }

  /** For every plan, whatever its medians: spikes reach the store through their own last flush alone. */
  lemma {:induction false} SpikeIsStoredIffItPasses(config: Config, names: seq<string>, plan: seq<Flushed>,
                                                    mac: string, name: string, lo: real, hi: real)
    requires name != LUX && Normalized(plan)
    ensures SpikeIsStored(config, names, AttemptsOf(plan), mac, name, lo, hi)
      <==> SomeSpikePasses(config, names, plan, mac, name, lo, hi)
  {
    if plan == [] {
      NothingStored(config, names, mac, name, lo, hi);
    } else {
      var before, f := Front(plan), Last(plan);
      SpikeIsStoredIffItPasses(config, names, before, mac, name, lo, hi);
      SomeSpikePassesNext(config, names, plan, mac, name, lo, hi);
      var attempts := FailuresOf(before, f) + [Written(f.window)];
      assert AttemptsOf(plan) == attempts && AttemptsOf(before) <= attempts;
      if SpikeIsStored(config, names, attempts, mac, name, lo, hi) {
        var n, ts :| 0 <= n <= |attempts| && HoldsSpike(config, names, attempts[..n], Key(ts, mac), name, lo, hi);
        PrefixHolds(config, names, before, f, attempts, n, Key(ts, mac), name, lo, hi);
      } else if SpikeIsStored(config, names, AttemptsOf(before), mac, name, lo, hi) {
        StoredEarlier(config, names, AttemptsOf(before), attempts, mac, name, lo, hi);
      } else if SpikePasses(config, names, before, f, mac, name, lo, hi) {
        StoredByPassing(config, names, before, f, mac, name, lo, hi);
      }
    }
  }

  lemma {:induction false} NothingStored(config: Config, names: seq<string>, mac: string, name: string, lo: real,
                                         hi: real)
    ensures !SpikeIsStored(config, names, [], mac, name, lo, hi)
  {
    forall n, ts | 0 <= n <= 0 ensures !HoldsSpike(config, names, [][..n], Key(ts, mac), name, lo, hi) {
      assert WritesOf(config, names, []) == [];
    }
  }

  // ---------------------------------------------------------------- the exact conditions

  /** If no spike's write fails, no spike is ever stored. */
  lemma {:induction false} NoFailureNoSpike(config: Config, names: seq<string>, plan: seq<Flushed>, mac: string,
                                            name: string, lo: real, hi: real)
    requires PlanInBand(config, names, plan, mac, name, lo, hi) && config.confirmWindow >= 0 && Normalized(plan)
    requires !SomeSpikeFails(plan, mac, name, lo, hi)
    ensures !SpikeIsStored(config, names, AttemptsOf(plan), mac, name, lo, hi)
  {
    NoFailureIsQuiet(config, names, plan, mac, name, lo, hi);
    QuietPlanPassesNoSpike(config, names, plan, mac, name, lo, hi);
    SpikeIsStoredIffItPasses(config, names, plan, mac, name, lo, hi);
  }

  /** The row of a window holds its median after its last flush, or what it held before. */
  ghost predicate OwnRow(config: Config, names: seq<string>, plan: seq<Flushed>, f: Flushed, name: string, stored: bool)
    requires name in f.window.medians
  {
    var key := StoredAt(Written(f.window));
    Stored(config, names, AttemptsOf(plan + [f]), key, name)
    == if stored then Some(f.window.medians[name]) else Stored(config, names, AttemptsOf(plan), key, name)
  }

  lemma {:induction false} StoredAfterQuiet(config: Config, names: seq<string>, plan: seq<Flushed>, f: Flushed,
                                            mac: string, name: string, lo: real, hi: real)
    requires PlanInBand(config, names, plan + [f], mac, name, lo, hi) && config.confirmWindow >= 0
    requires Normalized(plan + [f]) && IsSpike(f.window, mac, name, lo, hi)
    requires QuietPlan(ScreenFor(config, name), plan, mac, name, lo, hi)
    ensures SpikeIsStored(config, names, AttemptsOf(plan + [f]), mac, name, lo, hi)
      <==> SpikePasses(config, names, plan, f, mac, name, lo, hi)
  {
    assert Front(plan + [f]) == plan && Last(plan + [f]) == f;
    PlanBefore(config, names, plan + [f], mac, name, lo, hi);
    QuietPlanPassesNoSpike(config, names, plan, mac, name, lo, hi);
    SomeSpikePassesNext(config, names, plan + [f], mac, name, lo, hi);
    SpikeIsStoredIffItPasses(config, names, plan + [f], mac, name, lo, hi);
  }

  /** After quiet windows: a spike is stored by its own write iff its failures are odd or made it near the baseline. */
  lemma {:induction false} SpikeIsStoredIffOddOrNear(config: Config, names: seq<string>, plan: seq<Flushed>, f: Flushed,
                                                     mac: string, name: string, lo: real, hi: real)
    requires PlanInBand(config, names, plan + [f], mac, name, lo, hi) && config.confirmWindow >= 0
    requires Normalized(plan + [f]) && IsSpike(f.window, mac, name, lo, hi)
    requires QuietPlan(ScreenFor(config, name), plan, mac, name, lo, hi)
    ensures
      var v, c := f.window.medians[name], ScreenFor(config, name);
      var near := IsNear(c, Believed(plan, mac, name, lo, hi) + Repeat(v, f.failures), v);
      && (SpikeIsStored(config, names, AttemptsOf(plan + [f]), mac, name, lo, hi) <==> f.failures % 2 == 1 || near)
      && OwnRow(config, names, plan, f, name, f.failures % 2 == 1 || near)
  {
    SpikePassesIffOddOrNear(config, names, plan, f, mac, name, lo, hi);
    StoredAfterQuiet(config, names, plan, f, mac, name, lo, hi);
    RowOfSpike(config, names, plan, f, mac, name, lo, hi);
  }

  /** The first spike whose write fails: n failures store it iff n is odd or n copies take the window over. */
  lemma {:induction false} FirstFailedSpikeIsStoredIff(config: Config, names: seq<string>, plan: seq<Flushed>,
                                                       f: Flushed, mac: string, name: string, lo: real, hi: real)
    requires PlanInBand(config, names, plan + [f], mac, name, lo, hi) && config.confirmWindow >= 0
    requires Normalized(plan + [f]) && IsSpike(f.window, mac, name, lo, hi)
    requires !SomeSpikeFails(plan, mac, name, lo, hi)
    ensures
      var v, c := f.window.medians[name], ScreenFor(config, name);
      var takesOver := TakesOver(c, Believed(plan, mac, name, lo, hi), v, f.failures);
      && (SpikeIsStored(config, names, AttemptsOf(plan + [f]), mac, name, lo, hi) <==> f.failures % 2 == 1 || takesOver)
      && OwnRow(config, names, plan, f, name, f.failures % 2 == 1 || takesOver)
  {
    var c, believed := ScreenFor(config, name), Believed(plan, mac, name, lo, hi);
    assert Front(plan + [f]) == plan && Last(plan + [f]) == f;
    PlanBefore(config, names, plan + [f], mac, name, lo, hi);
    NoFailureIsQuiet(config, names, plan, mac, name, lo, hi);
    QuietPlanIsInStep(config, names, plan, mac, name, lo, hi);
    NearIffTakesOver(c, believed, f.window.medians[name], f.failures, lo, hi);
    SpikeIsStoredIffOddOrNear(config, names, plan, f, mac, name, lo, hi);
  }

  lemma {:induction false} AttemptsGrow(plan: seq<Flushed>, i: nat)
    requires i <= |plan|
    ensures AttemptsOf(plan[..i]) <= AttemptsOf(plan)
  {
    if i == |plan| {
      assert plan[..i] == plan;
    } else {
      AttemptsGrow(Front(plan), i);
      assert Front(plan)[..i] == plan[..i];
    }
  }

  lemma {:induction false} PlanPrefix(config: Config, names: seq<string>, plan: seq<Flushed>, i: nat, mac: string,
                                      name: string, lo: real, hi: real)
    requires i <= |plan| && PlanInBand(config, names, plan, mac, name, lo, hi)
    ensures PlanInBand(config, names, plan[..i], mac, name, lo, hi)
  {
    if i == |plan| {
      assert plan[..i] == plan;
    } else {
      PlanBefore(config, names, plan, mac, name, lo, hi);
      PlanPrefix(config, names, Front(plan), i, mac, name, lo, hi);
      assert Front(plan)[..i] == plan[..i];
    }
  }

  lemma {:induction false} PrefixInBand(config: Config, names: seq<string>, plan: seq<Flushed>, i: nat, mac: string,
                                        name: string, lo: real, hi: real)
    requires i < |plan| && PlanInBand(config, names, plan, mac, name, lo, hi)
    ensures PlanInBand(config, names, plan[..i] + [plan[i]], mac, name, lo, hi)
  {
    assert plan[..i + 1] == plan[..i] + [plan[i]];
    PlanPrefix(config, names, plan, i + 1, mac, name, lo, hi);
  }

  lemma {:induction false} StoredInWhole(config: Config, names: seq<string>, plan: seq<Flushed>, i: nat, mac: string,
                                         name: string, lo: real, hi: real)
    requires i < |plan|
    requires SpikeIsStored(config, names, AttemptsOf(plan[..i] + [plan[i]]), mac, name, lo, hi)
    ensures SpikeIsStored(config, names, AttemptsOf(plan), mac, name, lo, hi)
  {
    AttemptsGrowTo(plan, i);
    StoredEarlier(config, names, AttemptsOf(plan[..i] + [plan[i]]), AttemptsOf(plan), mac, name, lo, hi);
  }

  lemma {:induction false} AttemptsGrowTo(plan: seq<Flushed>, i: nat)
    requires i < |plan|
    ensures AttemptsOf(plan[..i] + [plan[i]]) <= AttemptsOf(plan)
  {
    assert plan[..i + 1] == plan[..i] + [plan[i]];
    AttemptsGrow(plan, i + 1);
  }

  ghost predicate FailsFirst(plan: seq<Flushed>, i: nat, mac: string, name: string, lo: real, hi: real)
    requires i < |plan|
  {
    SpikeFails(plan[i], mac, name, lo, hi) && !SomeSpikeFails(plan[..i], mac, name, lo, hi)
  }

  lemma {:induction false} FirstFailure(plan: seq<Flushed>, mac: string, name: string, lo: real, hi: real)
    returns (i: nat)
    requires SomeSpikeFails(plan, mac, name, lo, hi)
    ensures i < |plan| && FailsFirst(plan, i, mac, name, lo, hi)
  {
    i :| 0 <= i < |plan| && SpikeFails(plan[i], mac, name, lo, hi);
    if SomeSpikeFails(plan[..i], mac, name, lo, hi) {
      var k := i;
      i := FirstFailure(plan[..k], mac, name, lo, hi);
      assert plan[..k][..i] == plan[..i];
    }
  }

  lemma {:induction false} FirstFailureStores(config: Config, names: seq<string>, plan: seq<Flushed>, i: nat,
                                              mac: string, name: string, lo: real, hi: real)
    requires PlanInBand(config, names, plan, mac, name, lo, hi) && config.confirmWindow >= 0 && Normalized(plan)
    requires i < |plan| && FailsFirst(plan, i, mac, name, lo, hi)
    requires plan[i].failures % 2 == 1 || TakesOver(ScreenFor(config, name), Believed(plan[..i], mac, name, lo, hi),
                                                    plan[i].window.medians[name], plan[i].failures)
    ensures SpikeIsStored(config, names, AttemptsOf(plan), mac, name, lo, hi)
  {
    PrefixInBand(config, names, plan, i, mac, name, lo, hi);
    FirstFailedSpikeIsStoredIff(config, names, plan[..i], plan[i], mac, name, lo, hi);
    StoredInWhole(config, names, plan, i, mac, name, lo, hi);
  }

  /**
   Whole plans: where the first spike whose write fails has an odd number of failures, or
   copies that take over, some spike is stored iff some spike's write fails.
   */
  lemma {:induction false} SpikeIsStoredIffItsWriteFails(config: Config, names: seq<string>, plan: seq<Flushed>,
                                                         mac: string, name: string, lo: real, hi: real)
    requires PlanInBand(config, names, plan, mac, name, lo, hi) && config.confirmWindow >= 0 && Normalized(plan)
    requires forall i :: 0 <= i < |plan| && FailsFirst(plan, i, mac, name, lo, hi) ==>
      plan[i].failures % 2 == 1 || TakesOver(ScreenFor(config, name), Believed(plan[..i], mac, name, lo, hi),
                                             plan[i].window.medians[name], plan[i].failures)
    ensures SpikeIsStored(config, names, AttemptsOf(plan), mac, name, lo, hi)
      <==> SomeSpikeFails(plan, mac, name, lo, hi)
  {
    if SomeSpikeFails(plan, mac, name, lo, hi) {
      var i := FirstFailure(plan, mac, name, lo, hi);
      FirstFailureStores(config, names, plan, i, mac, name, lo, hi);
    } else {
      NoFailureNoSpike(config, names, plan, mac, name, lo, hi);
    }
  }

  lemma {:induction false} FirstUnquiet(c: Screen, plan: seq<Flushed>, mac: string, name: string, lo: real, hi: real)
    returns (i: nat)
    requires !QuietPlan(c, plan, mac, name, lo, hi)
    ensures i < |plan| && QuietPlan(c, plan[..i], mac, name, lo, hi)
      && !IsQuiet(c, Believed(plan[..i], mac, name, lo, hi), plan[i], mac, name, lo, hi)
  {
    if QuietPlan(c, Front(plan), mac, name, lo, hi) {
      i := |plan| - 1;
      assert plan[..i] == Front(plan);
    } else {
      i := FirstUnquiet(c, Front(plan), mac, name, lo, hi);
      assert Front(plan)[..i] == plan[..i];
    }
  }

  lemma {:induction false} UnquietStores(config: Config, names: seq<string>, plan: seq<Flushed>, f: Flushed,
                                         mac: string, name: string, lo: real, hi: real)
    requires PlanInBand(config, names, plan + [f], mac, name, lo, hi) && config.confirmWindow >= 0
    requires Normalized(plan + [f]) && IsSpike(f.window, mac, name, lo, hi)
    requires QuietPlan(ScreenFor(config, name), plan, mac, name, lo, hi)
    requires OddOrNear(ScreenFor(config, name), Believed(plan, mac, name, lo, hi), f, name)
    ensures SpikeIsStored(config, names, AttemptsOf(plan + [f]), mac, name, lo, hi)
  {
    SpikePassesIffOddOrNear(config, names, plan, f, mac, name, lo, hi);
    StoredAfterQuiet(config, names, plan, f, mac, name, lo, hi);
  }

  /**
   Whole plans, whose spikes may fail any number of times: where the first window that is
   not quiet is odd or near, some spike is stored iff not all windows are quiet.
   */
  lemma {:induction false} SpikeIsStoredIffNotQuiet(config: Config, names: seq<string>, plan: seq<Flushed>,
                                                    mac: string, name: string, lo: real, hi: real)
    requires PlanInBand(config, names, plan, mac, name, lo, hi) && config.confirmWindow >= 0 && Normalized(plan)
    requires forall i :: 0 <= i < |plan| && QuietPlan(ScreenFor(config, name), plan[..i], mac, name, lo, hi) ==>
      IsQuiet(ScreenFor(config, name), Believed(plan[..i], mac, name, lo, hi), plan[i], mac, name, lo, hi)
      || OddOrNear(ScreenFor(config, name), Believed(plan[..i], mac, name, lo, hi), plan[i], name)
    ensures SpikeIsStored(config, names, AttemptsOf(plan), mac, name, lo, hi)
      <==> !QuietPlan(ScreenFor(config, name), plan, mac, name, lo, hi)
  {
    var c := ScreenFor(config, name);
    if QuietPlan(c, plan, mac, name, lo, hi) {
      QuietPlanPassesNoSpike(config, names, plan, mac, name, lo, hi);
      SpikeIsStoredIffItPasses(config, names, plan, mac, name, lo, hi);
    } else {
      var i := FirstUnquiet(c, plan, mac, name, lo, hi);
      PrefixInBand(config, names, plan, i, mac, name, lo, hi);
      UnquietStores(config, names, plan[..i], plan[i], mac, name, lo, hi);
      StoredInWhole(config, names, plan, i, mac, name, lo, hi);
    }
  }

  ghost predicate OddOrNear(c: Screen, believed: seq<real>, f: Flushed, name: string) {
    name in f.window.medians ==>
      f.failures % 2 == 1
      || IsNear(c, believed + Repeat(f.window.medians[name], f.failures), f.window.medians[name])
  }

  // ---------------------------------------------------------------- runs of the collector

  /** A window whose first write fails: the withheld median is stored by the second. */
  method FlushAgain(c: OutlierFlush.Collector, agg: SampleAggregation.Aggregate, ghost name: string)
    requires c.Valid() && !SampleAggregation.IsEmpty(agg) && NormalizeMAC(agg.mac) != ""
    requires forall n :: n in agg.samples ==> n in c.names || n == LUX
    requires c.filter.outliers.confirmWindow >= 0 && name in c.names && name in AttemptOf(agg, false).medians
    requires !Passes(c.filter.outliers, c.filter.calls, AttemptOf(agg, false), name)
    requires Passed(c.filter.outliers, c.filter.calls, AttemptOf(agg, false)) != map[]
    modifies c, c.filter, c.db`minutes
    ensures c.Valid() && c.attempts == old(c.attempts) + [AttemptOf(agg, true)] + [AttemptOf(agg, false)]
    ensures Column(c.db.minutes, StoredAt(AttemptOf(agg, false)), name) == Some(AttemptOf(agg, false).medians[name])
  {
    ghost var before := c.attempts;
    ghost var a := AttemptOf(agg, false);
    RetriedSpikeIsStored(c.filter.outliers, c.names, before, a, name);
    var wrote, ok := c.Flush(agg, true);
    wrote, ok := c.Flush(agg, false);
  }

  lemma {:induction false} MedianOfOne(x: real)
    ensures Median([x]) == x
  {
    assert Sorted([x]) == Insert(x, Sorted([]));
  }

  /** A window with one sample of one metric. */
  method FlushSample(c: OutlierFlush.Collector, mac: string, window: int, name: string, value: real)
    requires c.Valid() && name in c.names && NormalizeMAC(mac) != ""
    modifies c, c.filter, c.db`minutes
    ensures c.Valid() && c.attempts == old(c.attempts) + [Attempt(mac, window, map[name := value], false)]
  {
    var agg := SampleAggregation.Aggregate(mac, window, map[name := [value]], None);
    MedianOfOne(value);
    assert name in agg.samples && SampleAggregation.Medians(agg) == map[name := value];
    var wrote, ok := c.Flush(agg, false);
  }

  /** Three equal readings make a baseline that a far one is not near. */
  lemma {:induction false} FourthIsWithheld(c: Screen, readings: seq<Reading>, r: Reading, v: real)
    requires c.threshold >= 0.0 && c.confirmWindow >= 0 && c.size >= 3 && IsFar(c, r.value, v, v)
    requires |readings| == 3 && forall i :: 0 <= i < 3 ==> readings[i].value == v
    ensures !Kept(c, readings + [r])
  {
    assert BandWithLoneSpikes(c, readings, v, v);
    BandGrows(c, readings, r, v, v);
    LoneSpikesAreRemoved(c, readings + [r], v, v);
  }

  /** From an empty collector: three windows of 20, then a spike of 90 in a window whose write fails once. */
  method SpikeSlipsThrough(mac: string, name: string) returns (db: Store)
    requires NormalizeMAC(mac) == mac != "" && name in FILTERED
    ensures Column(db.minutes, Key(180, mac), name) == Some(90.0)
  {
    var config := Config(true, 8, 900, map[name := 5.0]);
    db := new Store(map[]);
    var c := new OutlierFlush.Collector(config, db);
    WarmUp(c, mac, name);
    FailOnSpike(c, mac, name);
  }

  method WarmUp(c: OutlierFlush.Collector, mac: string, name: string)
    requires c.Valid() && c.attempts == [] && name in c.names && NormalizeMAC(mac) != ""
    modifies c, c.filter, c.db`minutes
    ensures c.Valid() && Windows(c.attempts, 3, mac, name)
  {
    for i := 0 to 3
      invariant c.Valid() && Windows(c.attempts, i, mac, name)
    {
      WindowsNext(c.attempts, i, mac, name);
      FlushSample(c, mac, 60 * i, name, 20.0);
    }
  }

  lemma {:induction false} WindowsNext(attempts: seq<Attempt>, n: nat, mac: string, name: string)
    requires Windows(attempts, n, mac, name)
    ensures Windows(attempts + [Attempt(mac, 60 * n, map[name := 20.0], false)], n + 1, mac, name)
  {
  }

  ghost predicate Windows(attempts: seq<Attempt>, n: nat, mac: string, name: string) {
    |attempts| == n && forall i :: 0 <= i < n ==> attempts[i] == Attempt(mac, 60 * i, map[name := 20.0], false)
  }

  method FailOnSpike(c: OutlierFlush.Collector, mac: string, name: string)
    requires c.Valid() && Windows(c.attempts, 3, mac, name) && name in c.names
    requires c.filter.outliers == Config(true, 8, 900, map[name := 5.0]) && NormalizeMAC(mac) == mac != ""
    modifies c, c.filter, c.db`minutes
    ensures Column(c.db.minutes, Key(180, mac), name) == Some(90.0)
  {
    var agg := SampleAggregation.Aggregate(mac, 180, map[name := [90.0], LUX := [1.0]], None);
    SpikeIsWithheld(c.filter.outliers, c.names, c.attempts, agg, mac, name);
    FlushAgain(c, agg, name);
    assert StoredAt(AttemptOf(agg, false)) == Key(180, mac);
  }

  lemma {:induction false} SpikeIsWithheld(config: Config, names: seq<string>, attempts: seq<Attempt>,
                                           agg: SampleAggregation.Aggregate, mac: string, name: string)
    requires Distinct(names) && name in names && LUX !in names && config == Config(true, 8, 900, map[name := 5.0])
    requires Windows(attempts, 3, mac, name)
    requires agg == SampleAggregation.Aggregate(mac, 180, map[name := [90.0], LUX := [1.0]], None)
    ensures AttemptOf(agg, false).medians == map[name := 90.0, LUX := 1.0] && !SampleAggregation.IsEmpty(agg)
    ensures !Passes(config, CallsOf(names, attempts), AttemptOf(agg, false), name)
    ensures LUX in Passed(config, CallsOf(names, attempts), AttemptOf(agg, false))
  {
    SpikeMedians(agg, name);
    var readings := ReadingsOf(CallsOf(names, attempts), mac, name);
    ThreeReadings(names, attempts, mac, name);
    FourthIsWithheld(ScreenFor(config, name), readings, OutlierFilter.Reading(180, 90.0), 20.0);
  }

  lemma {:induction false} SpikeMedians(agg: SampleAggregation.Aggregate, name: string)
    requires name != LUX && agg.samples == map[name := [90.0], LUX := [1.0]]
    ensures SampleAggregation.Medians(agg) == map[name := 90.0, LUX := 1.0] && !SampleAggregation.IsEmpty(agg)
  {
    MedianOfOne(90.0);
    MedianOfOne(1.0);
    assert name in agg.samples && LUX in agg.samples;
  }

  lemma {:induction false} ThreeReadings(names: seq<string>, attempts: seq<Attempt>, mac: string, name: string)
    requires Distinct(names) && name in names && Windows(attempts, 3, mac, name)
    ensures var readings := ReadingsOf(CallsOf(names, attempts), mac, name);
      |readings| == 3 && forall i :: 0 <= i < 3 ==> readings[i].value == 20.0
  {
    assert attempts == [] + [attempts[0]] + [attempts[1]] + [attempts[2]];
    ReadingsNext(names, [], attempts[0], mac, name);
    ReadingsNext(names, [] + [attempts[0]], attempts[1], mac, name);
    ReadingsNext(names, [] + [attempts[0]] + [attempts[1]], attempts[2], mac, name);
  }
}
