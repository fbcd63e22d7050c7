/**
 What the alert evaluator guarantees over whole runs of one fixed rule, from its
 first evaluation on. Ticks are evaluations; the device may be switched off and on.
 */
module AlertRuns {
  import opened AlertEvaluator
  import opened Reals
  import opened Wrappers

  datatype Tick = Tick(now: int, deviceEnabled: bool, observation: Option<Observation>)

  function Result(rule: Rule, ticks: seq<Tick>, n: nat): Outcome
    requires n < |ticks|
    decreases n, 1
  {
    Evaluation(ticks[n].now, rule, ticks[n].deviceEnabled, StateAfter(rule, ticks, n), ticks[n].observation)
  }

  /** The state after the first n ticks. */
  function StateAfter(rule: Rule, ticks: seq<Tick>, n: nat): State
    requires n <= |ticks|
    decreases n, 0
  {
    if n == 0 then INITIAL else Result(rule, ticks, n - 1).state
  }

  predicate FiresAt(rule: Rule, ticks: seq<Tick>, n: nat)
    requires n < |ticks|
  {
    var event := Result(rule, ticks, n).event;
    event.Some? && event.value.kind == FiringEvent
  }

  // ---------------------------------------------------------------- which observations count

  predicate Seen(rule: Rule, tick: Tick) {
    Active(rule, tick.deviceEnabled) && tick.observation.Some?
  }

  /** The time of the last observation seen before tick n. */
  function LastSeen(rule: Rule, ticks: seq<Tick>, n: nat): Option<int>
    requires n <= |ticks|
  {
    if n == 0 then None
    else if Seen(rule, ticks[n - 1]) then Some(ticks[n - 1].observation.value.time)
    else LastSeen(rule, ticks, n - 1)
  }

  /** Tick n shows a fresh observation newer than every earlier one. */
  predicate Counted(rule: Rule, ticks: seq<Tick>, n: nat)
    requires n < |ticks|
  {
    && Seen(rule, ticks[n])
    && !IsStale(rule, ticks[n].now, ticks[n].observation.value)
    && IsNewer(LastSeen(rule, ticks, n), ticks[n].observation.value)
  }

  /** Tick n shows a newer observation that is already stale; it is never judged. */
  predicate FirstSeenStale(rule: Rule, ticks: seq<Tick>, n: nat)
    requires n < |ticks|
  {
    && Seen(rule, ticks[n])
    && IsStale(rule, ticks[n].now, ticks[n].observation.value)
    && IsNewer(LastSeen(rule, ticks, n), ticks[n].observation.value)
  }

  function TimeAt(ticks: seq<Tick>, n: nat): int
    requires n < |ticks| && ticks[n].observation.Some?
  {
    ticks[n].observation.value.time
  }

  function ValueAt(ticks: seq<Tick>, n: nat): real
    requires n < |ticks| && ticks[n].observation.Some?
  {
    ticks[n].observation.value.value
  }

  ghost predicate TimesNeverGoBack(rule: Rule, ticks: seq<Tick>) {
    forall i, j :: 0 <= i < j < |ticks| && Seen(rule, ticks[i]) && Seen(rule, ticks[j]) ==>
      TimeAt(ticks, i) <= TimeAt(ticks, j)
  }

  lemma {:induction false} LastSeenIsStored(rule: Rule, ticks: seq<Tick>, n: nat)
    requires n <= |ticks|
    ensures StateAfter(rule, ticks, n).lastValueAt == LastSeen(rule, ticks, n)
  {
    if n == 0 {
    } else {
      LastSeenIsStored(rule, ticks, n - 1);
    }
  }

  lemma {:induction false} LastSeenIsLatest(rule: Rule, ticks: seq<Tick>, i: nat, n: nat)
    requires i < n <= |ticks| && Seen(rule, ticks[i]) && TimesNeverGoBack(rule, ticks)
    ensures LastSeen(rule, ticks, n).Some? && LastSeen(rule, ticks, n).value >= TimeAt(ticks, i)
  {
    if !Seen(rule, ticks[n - 1]) {
      LastSeenIsLatest(rule, ticks, i, n - 1);
    }
  }

  // ---------------------------------------------------------------- sustained firing

  /** From tick s to tick n every counted observation triggers, without a gap between them. */
  ghost predicate Sustained(rule: Rule, ticks: seq<Tick>, s: nat, n: nat) {
    && s < n <= |ticks| && Counted(rule, ticks, s)
    && (forall i :: s <= i < n && Counted(rule, ticks, i) ==> Triggers(rule, ValueAt(ticks, i)))
    && (forall i :: s < i < n && Counted(rule, ticks, i) ==>
      !AfterGap(rule, LastSeen(rule, ticks, i), ticks[i].observation.value))
  }

  lemma {:induction false} PendingIsSustained(rule: Rule, ticks: seq<Tick>, n: nat) returns (s: nat)
    requires n <= |ticks| && StateAfter(rule, ticks, n).status == Pending
    ensures Sustained(rule, ticks, s, n)
    ensures StateAfter(rule, ticks, n).pendingSince == Some(TimeAt(ticks, s))
  {
    var before := StateAfter(rule, ticks, n - 1);
    LastSeenIsStored(rule, ticks, n - 1);
    if Counted(rule, ticks, n - 1) {
      if before.status != Pending || AfterGap(rule, before.lastValueAt, ticks[n - 1].observation.value) {
        s := n - 1;
      } else {
        s := PendingIsSustained(rule, ticks, n - 1);
      }
    } else {
      s := PendingIsSustained(rule, ticks, n - 1);
    }
  }

  /** A firing event means the trigger held, reading after reading, for the rule's duration. */
  lemma {:induction false} FiringWasSustained(rule: Rule, ticks: seq<Tick>, n: nat) returns (s: nat)
    requires rule.forDuration > 0 && n < |ticks| && FiresAt(rule, ticks, n) && TimesNeverGoBack(rule, ticks)
    ensures Sustained(rule, ticks, s, n + 1) && Counted(rule, ticks, n)
    ensures TimeAt(ticks, n) - TimeAt(ticks, s) >= rule.forDuration
    ensures forall i ::
      0 <= i < |ticks| && Counted(rule, ticks, i) && TimeAt(ticks, s) <= TimeAt(ticks, i) <= TimeAt(ticks, n) ==>
      Triggers(rule, ValueAt(ticks, i))
  {
    LastSeenIsStored(rule, ticks, n);
    s := PendingIsSustained(rule, ticks, n);
    forall i | 0 <= i < |ticks| && Counted(rule, ticks, i) && TimeAt(ticks, s) <= TimeAt(ticks, i) <= TimeAt(ticks, n)
      ensures s <= i <= n
    {
      if i < s {
        LastSeenIsLatest(rule, ticks, i, s);
      } else if i > n {
        LastSeenIsLatest(rule, ticks, n, i);
      }
    }
  }

  /** Unless an observation was first seen stale in between, no later one moves the last time seen. */
  lemma {:induction false} NothingNewBetween(rule: Rule, ticks: seq<Tick>, a: nat, n: nat)
    requires a < n <= |ticks| && Counted(rule, ticks, a) && TimesNeverGoBack(rule, ticks)
    requires forall i :: a < i < n ==> !Counted(rule, ticks, i) && !FirstSeenStale(rule, ticks, i)
    ensures LastSeen(rule, ticks, n) == Some(TimeAt(ticks, a))
  {
    if a < n - 1 {
      NothingNewBetween(rule, ticks, a, n - 1);
      assert !Counted(rule, ticks, n - 1) && !FirstSeenStale(rule, ticks, n - 1);
      assert Seen(rule, ticks[n - 1]) ==> TimeAt(ticks, a) <= TimeAt(ticks, n - 1);
    }
  }

  /** Adjacent readings of a sustained stretch are at most the maximum data age apart. */
  lemma {:induction false} AdjacentReadingsAreClose(rule: Rule, ticks: seq<Tick>, s: nat, n: nat, a: nat, b: nat)
    requires Sustained(rule, ticks, s, n) && TimesNeverGoBack(rule, ticks) && rule.maxDataAge > 0
    requires s <= a < b < n && Counted(rule, ticks, a) && Counted(rule, ticks, b)
    requires forall i :: a < i < b ==> !Counted(rule, ticks, i) && !FirstSeenStale(rule, ticks, i)
    ensures TimeAt(ticks, b) - TimeAt(ticks, a) <= rule.maxDataAge
  {
    NothingNewBetween(rule, ticks, a, b);
  }

  // ---------------------------------------------------------------- what staleness hides

  /** Tick n shows an observation newer than every earlier one, stale or not. */
  predicate ShowsNewer(rule: Rule, ticks: seq<Tick>, n: nat)
    requires n < |ticks|
  {
    Seen(rule, ticks[n]) && IsNewer(LastSeen(rule, ticks, n), ticks[n].observation.value)
  }

  /** From tick s to tick n, for the rule's duration, every newer observation triggers. */
  ghost predicate Unbroken(rule: Rule, ticks: seq<Tick>, s: nat, n: nat) {
    && s <= n < |ticks| && ShowsNewer(rule, ticks, s) && ShowsNewer(rule, ticks, n)
    && TimeAt(ticks, n) - TimeAt(ticks, s) >= rule.forDuration
    && forall i :: s <= i <= n && ShowsNewer(rule, ticks, i) ==> Triggers(rule, ValueAt(ticks, i))
  }

  ghost predicate FiringIsUnbroken(rule: Rule, ticks: seq<Tick>, n: nat) {
    exists s :: Unbroken(rule, ticks, s, n)
  }

  /** Three readings, the middle one first seen when it is too old to judge. */
  function BridgedRun(rule: Rule, high: real, low: real): seq<Tick> {
    var f, d := rule.forDuration, rule.maxDataAge;
    [Tick(0, true, Some(Observation(0, high))),
     Tick(f + d + 1, true, Some(Observation(f, low))),
     Tick(f + d + 1, true, Some(Observation(f + d, high)))]
  }

  /**
   The rule fires although the reading in the middle did not trigger, and although the two
   readings that were judged lie further apart than the maximum data age.
   */
  lemma {:induction false} StaleReadingBridgesGap(rule: Rule, high: real, low: real)
    requires rule.enabled && rule.forDuration > 0 && rule.maxDataAge > 0
    requires Triggers(rule, high) && !Triggers(rule, low)
    ensures var ticks := BridgedRun(rule, high, low);
      && TimesNeverGoBack(rule, ticks) && FiresAt(rule, ticks, 2) && !FiringIsUnbroken(rule, ticks, 2)
      && Counted(rule, ticks, 0) && FirstSeenStale(rule, ticks, 1) && Counted(rule, ticks, 2)
      && TimeAt(ticks, 2) - TimeAt(ticks, 0) == rule.forDuration + rule.maxDataAge
  {
    var ticks := BridgedRun(rule, high, low);
    BridgedStates(rule, ticks, high, low);
    forall s ensures !Unbroken(rule, ticks, s, 2) {
      if s <= 1 {
        assert ShowsNewer(rule, ticks, 1) && ValueAt(ticks, 1) == low;
      }
    }
  }

  lemma {:induction false} BridgedStates(rule: Rule, ticks: seq<Tick>, high: real, low: real)
    requires rule.enabled && rule.forDuration > 0 && rule.maxDataAge > 0 && ticks == BridgedRun(rule, high, low)
    requires Triggers(rule, high) && !Triggers(rule, low)
    ensures LastSeen(rule, ticks, 0) == None && LastSeen(rule, ticks, 1) == Some(0)
    ensures LastSeen(rule, ticks, 2) == Some(rule.forDuration)
    ensures FiresAt(rule, ticks, 2)
  {
    var f := rule.forDuration;
    assert LastSeen(rule, ticks, 1) == Some(0);
    assert StateAfter(rule, ticks, 1).status == Pending && StateAfter(rule, ticks, 1).pendingSince == Some(0);
    assert StateAfter(rule, ticks, 2) == Result(rule, ticks, 1).state;
    assert StateAfter(rule, ticks, 2).status == Pending && StateAfter(rule, ticks, 2).pendingSince == Some(0);
    assert StateAfter(rule, ticks, 2).lastValueAt == Some(f);
  }

  /** Where nothing is stale, newer observations are the counted ones, and firing is unbroken. */
  lemma {:induction false} FreshFiringIsUnbroken(rule: Rule, ticks: seq<Tick>, n: nat)
    requires rule.forDuration > 0 && rule.maxDataAge <= 0 && TimesNeverGoBack(rule, ticks)
    requires n < |ticks| && FiresAt(rule, ticks, n)
    ensures FiringIsUnbroken(rule, ticks, n)
  {
    var s := FiringWasSustained(rule, ticks, n);
    assert forall i :: 0 <= i < |ticks| ==> (ShowsNewer(rule, ticks, i) <==> Counted(rule, ticks, i));
    assert Unbroken(rule, ticks, s, n);
  }

  ghost predicate AlwaysUnbroken(rule: Rule) {
    forall ticks, n: nat :: n < |ticks| && TimesNeverGoBack(rule, ticks) && FiresAt(rule, ticks, n) ==>
      FiringIsUnbroken(rule, ticks, n)
  }

  /** An alert is raised only by a trigger that held throughout, on every run, exactly if nothing can be stale. */
  lemma {:induction false} FiringIsUnbrokenIff(rule: Rule)
    requires rule.enabled && rule.forDuration > 0
    ensures AlwaysUnbroken(rule) <==> rule.maxDataAge <= 0
  {
    if rule.maxDataAge <= 0 {
      forall ticks, n: nat | n < |ticks| && TimesNeverGoBack(rule, ticks) && FiresAt(rule, ticks, n)
        ensures FiringIsUnbroken(rule, ticks, n)
      {
        FreshFiringIsUnbroken(rule, ticks, n);
      }
    } else {
      var low := if rule.direction == Below then rule.trigger + 1.0 else rule.trigger - 1.0;
      StaleReadingBridgesGap(rule, rule.trigger, low);
      assert !FiringIsUnbroken(rule, BridgedRun(rule, rule.trigger, low), 2);
    }
  }

  // ---------------------------------------------------------------- bounded chatter

  /** The values of the counted observations among the first n ticks. */
  function CountedValues(rule: Rule, ticks: seq<Tick>, n: nat): seq<real>
    requires n <= |ticks|
  {
    if n == 0 then []
    else CountedValues(rule, ticks, n - 1) + if Counted(rule, ticks, n - 1) then [ValueAt(ticks, n - 1)] else []
  }

  function TotalVariation(values: seq<real>): real {
    if |values| < 2 then 0.0
    else TotalVariation(values[..|values| - 1]) + Abs(values[|values| - 1] - values[|values| - 2])
  }

  /** How many events the first n ticks produced. */
  function EventCount(rule: Rule, ticks: seq<Tick>, n: nat): nat
    requires n <= |ticks|
  {
    if n == 0 then 0 else EventCount(rule, ticks, n - 1) + if Result(rule, ticks, n - 1).event.Some? then 1 else 0
  }

  /** The gap that rule validation demands between the two thresholds. */
  predicate HasHysteresis(rule: Rule) {
    if rule.direction == Below then rule.clear > rule.trigger else rule.clear < rule.trigger
  }

  function Gap(rule: Rule): real { Abs(rule.trigger - rule.clear) }

  /** An event comes with a counted reading on the far side of its threshold. */
  lemma {:induction false} EventNeedsReading(rule: Rule, ticks: seq<Tick>, n: nat)
    requires n < |ticks| && rule.enabled && ticks[n].deviceEnabled
    ensures var before := StateAfter(rule, ticks, n).status == Firing;
      var after := StateAfter(rule, ticks, n + 1).status == Firing;
      && (Result(rule, ticks, n).event.Some? <==> before != after)
      && (before != after ==> Counted(rule, ticks, n))
      && (before != after ==> if after then Triggers(rule, ValueAt(ticks, n)) else Clears(rule, ValueAt(ticks, n)))
  {
    LastSeenIsStored(rule, ticks, n);
  }

  /** Every event costs a swing across the gap; what was swung since the last event is left over. */
  lemma {:induction false} SwingsPayForEvents(rule: Rule, ticks: seq<Tick>, n: nat) returns (at: real)
    requires n <= |ticks| && rule.enabled && HasHysteresis(rule)
    requires forall i :: 0 <= i < n ==> ticks[i].deviceEnabled
    ensures Paid(rule, CountedValues(rule, ticks, n), EventCount(rule, ticks, n),
                 StateAfter(rule, ticks, n).status == Firing, at)
  {
    at := 0.0;
    if n == 0 {
    } else {
      at := SwingsPayForEvents(rule, ticks, n - 1);
      EventNeedsReading(rule, ticks, n - 1);
      var values, events := CountedValues(rule, ticks, n - 1), EventCount(rule, ticks, n - 1);
      var firing, fired := StateAfter(rule, ticks, n - 1).status == Firing, StateAfter(rule, ticks, n).status == Firing;
      if Counted(rule, ticks, n - 1) {
        at := PaidStep(rule, values, events, firing, at, ValueAt(ticks, n - 1), fired);
      } else {
        assert CountedValues(rule, ticks, n) == values;
      }
    }
  }

  /** n times the gap. */
  ghost function Swings(n: nat, gap: real): real {
    if n == 0 then 0.0 else Swings(n - 1, gap) + gap
  }

  lemma {:induction false} SwingsMultiply(n: nat, gap: real)
    ensures Swings(n, gap) == n as real * gap
  {
    if n == 0 {
    } else {
      SwingsMultiply(n - 1, gap);
      assert n as real * gap == (n - 1) as real * gap + gap;
    }
  }

  ghost predicate Paid(rule: Rule, values: seq<real>, events: nat, firing: bool, at: real) {
    if events == 0 then !firing && TotalVariation(values) >= 0.0
    else
      && values != []
      && (if firing then Triggers(rule, at) else Clears(rule, at))
      && TotalVariation(values) >= Swings(events - 1, Gap(rule)) + Abs(values[|values| - 1] - at)
  }

  lemma {:induction false} PaidStep(rule: Rule, values: seq<real>, events: nat, firing: bool, at: real, v: real,
                                    fired: bool)
    returns (at': real)
    requires HasHysteresis(rule) && Paid(rule, values, events, firing, at)
    requires firing != fired ==> if fired then Triggers(rule, v) else Clears(rule, v)
    ensures Paid(rule, values + [v], events + if firing != fired then 1 else 0, fired, at')
  {
    VariationGrows(values, v);
    if events > 0 {
      SwingGrows(TotalVariation(values), events - 1, Gap(rule), values[|values| - 1], at, v);
    }
    if firing != fired {
      assert events > 0 ==> Abs(v - at) >= Gap(rule);
      at' := v;
    } else {
      at' := at;
    }
  }

  lemma {:induction false} VariationGrows(values: seq<real>, v: real)
    ensures TotalVariation(values + [v])
      == TotalVariation(values) + if values == [] then 0.0 else Abs(v - values[|values| - 1])
  {
  }

  lemma {:induction false} SwingGrows(variation: real, swings: nat, gap: real, last: real, at: real, v: real)
    requires variation >= Swings(swings, gap) + Abs(last - at)
    ensures variation + Abs(v - last) >= Swings(swings, gap) + Abs(v - at)
    ensures Abs(v - at) >= gap ==> variation + Abs(v - last) >= Swings(swings + 1, gap)
  {
  }

  lemma {:induction false} PaidVariation(rule: Rule, values: seq<real>, events: nat, firing: bool, at: real)
    requires HasHysteresis(rule) && Paid(rule, values, events, firing, at)
    ensures TotalVariation(values) >= (events - 1) as real * Gap(rule)
  {
    if events > 0 {
      SwingsMultiply(events - 1, Gap(rule));
    }
  }

  /** Hysteresis bounds chatter: k events need the readings to swing k - 1 times across the gap. */
  lemma {:induction false} ChatterIsBounded(rule: Rule, ticks: seq<Tick>)
    requires rule.enabled && HasHysteresis(rule)
    requires forall i :: 0 <= i < |ticks| ==> ticks[i].deviceEnabled
    ensures var n := |ticks|;
      TotalVariation(CountedValues(rule, ticks, n)) >= (EventCount(rule, ticks, n) - 1) as real * Gap(rule)
  {
    var at := SwingsPayForEvents(rule, ticks, |ticks|);
    PaidVariation(rule, CountedValues(rule, ticks, |ticks|), EventCount(rule, ticks, |ticks|),
                  StateAfter(rule, ticks, |ticks|).status == Firing, at);
  }
}
