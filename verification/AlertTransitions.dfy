/**
 What must happen over runs of one rule, and not only what may: when an alert is
 raised, when it ends, what its events say, and what leaves it alone.
 */
module AlertTransitions {
  import opened AlertEvaluator
  import opened AlertRuns
  import opened Wrappers

  /** On the alerting side of the trigger threshold, which counts as crossed. */
  predicate Crossed(rule: Rule, value: real) {
    (rule.direction == Below && value <= rule.trigger) || (rule.direction == Above && value >= rule.trigger)
  }

  /** On the far side of the clear threshold, which counts as cleared. */
  predicate Cleared(rule: Rule, value: real) {
    (rule.direction == Below && value >= rule.clear) || (rule.direction == Above && value <= rule.clear)
  }

  /** Rule and device are switched on at tick n. */
  predicate On(rule: Rule, ticks: seq<Tick>, n: nat)
    requires n < |ticks|
  {
    rule.enabled && ticks[n].deviceEnabled
  }

  /** Tick n brings a reading to judge: younger than the maximum age, and newer than the last one seen. */
  predicate Judged(rule: Rule, ticks: seq<Tick>, n: nat)
    requires n < |ticks|
  {
    && On(rule, ticks, n) && ticks[n].observation.Some?
    && (rule.maxDataAge > 0 ==> ticks[n].now - TimeAt(ticks, n) <= rule.maxDataAge)
    && (LastSeen(rule, ticks, n).Some? ==> TimeAt(ticks, n) > LastSeen(rule, ticks, n).value)
  }

  lemma {:induction false} JudgedIsCounted(rule: Rule, ticks: seq<Tick>, n: nat)
    requires n < |ticks|
    ensures Judged(rule, ticks, n) <==> Counted(rule, ticks, n)
  {
  }

  predicate IsFiring(rule: Rule, ticks: seq<Tick>, n: nat)
    requires n <= |ticks|
  {
    StateAfter(rule, ticks, n).status == Firing
  }

  predicate IsPending(rule: Rule, ticks: seq<Tick>, n: nat)
    requires n <= |ticks|
  {
    StateAfter(rule, ticks, n).status == Pending
  }

  // ---------------------------------------------------------------- the end of an alert

  /** While switched on, an alert ends exactly with a judged reading beyond the clear threshold. */
  lemma {:induction false} FiringEndsIff(rule: Rule, ticks: seq<Tick>, n: nat)
    requires n < |ticks| && On(rule, ticks, n) && IsFiring(rule, ticks, n)
    ensures !IsFiring(rule, ticks, n + 1) <==> Judged(rule, ticks, n) && Cleared(rule, ValueAt(ticks, n))
  {
    LastSeenIsStored(rule, ticks, n);
    assert StateAfter(rule, ticks, n + 1) == AlertRuns.Result(rule, ticks, n).state;
  }

  /** A judged reading beyond the clear threshold ends it, with the event that says so. */
  lemma {:induction false} ClearingIsRecorded(rule: Rule, ticks: seq<Tick>, n: nat)
    requires n < |ticks| && IsFiring(rule, ticks, n) && Judged(rule, ticks, n) && Cleared(rule, ValueAt(ticks, n))
    ensures AlertRuns.Result(rule, ticks, n).event
      == Some(Event(ResolvedEvent, ThresholdCleared, Some(ValueAt(ticks, n)), Some(TimeAt(ticks, n))))
    ensures StateAfter(rule, ticks, n + 1).status == Normal
  {
    LastSeenIsStored(rule, ticks, n);
  }

  /** The value of the last observation seen before tick n. */
  function LastValueSeen(rule: Rule, ticks: seq<Tick>, n: nat): Option<real>
    requires n <= |ticks|
  {
    if n == 0 then None
    else if Seen(rule, ticks[n - 1]) then Some(ticks[n - 1].observation.value.value)
    else LastValueSeen(rule, ticks, n - 1)
  }

  lemma {:induction false} LastValueIsStored(rule: Rule, ticks: seq<Tick>, n: nat)
    requires n <= |ticks|
    ensures StateAfter(rule, ticks, n).lastValue == LastValueSeen(rule, ticks, n)
  {
    if n == 0 {
    } else {
      LastValueIsStored(rule, ticks, n - 1);
    }
  }

  /** Switching rule or device off ends any alert and any wait for one, and names which it was. */
  lemma {:induction false} SwitchingOffResolves(rule: Rule, ticks: seq<Tick>, n: nat)
    requires n < |ticks| && !On(rule, ticks, n)
    ensures StateAfter(rule, ticks, n + 1).status == Normal && StateAfter(rule, ticks, n + 1).pendingSince == None
    ensures AlertRuns.Result(rule, ticks, n).event == if IsFiring(rule, ticks, n)
      then Some(Event(ResolvedEvent, if rule.enabled then DeviceDisabled else RuleDisabled,
                      LastValueSeen(rule, ticks, n), LastSeen(rule, ticks, n)))
      else None
  {
    LastSeenIsStored(rule, ticks, n);
    LastValueIsStored(rule, ticks, n);
  }

  /** Missing, stale and repeated readings change neither the status nor the wait, and cause no event. */
  lemma {:induction false} UnjudgedTickChangesNothing(rule: Rule, ticks: seq<Tick>, n: nat)
    requires n < |ticks| && On(rule, ticks, n) && !Judged(rule, ticks, n)
    ensures StateAfter(rule, ticks, n + 1).status == StateAfter(rule, ticks, n).status
    ensures StateAfter(rule, ticks, n + 1).pendingSince == StateAfter(rule, ticks, n).pendingSince
    ensures AlertRuns.Result(rule, ticks, n).event == None
  {
    LastSeenIsStored(rule, ticks, n);
    StatusIsSet(rule, ticks, n);
  }

  lemma {:induction false} StatusIsSet(rule: Rule, ticks: seq<Tick>, n: nat)
    requires n <= |ticks|
    ensures StateAfter(rule, ticks, n).status != Unset
  {
    if n == 0 {
    } else {
      StatusIsSet(rule, ticks, n - 1);
    }
  }

  /** What the state reports of the last evaluation. */
  lemma {:induction false} EvaluationIsReported(rule: Rule, ticks: seq<Tick>, n: nat)
    requires n < |ticks|
    ensures var s, tick := StateAfter(rule, ticks, n + 1), ticks[n];
      && s.lastEvaluatedAt == Some(tick.now)
      && (s.evaluation == Disabled <==> !On(rule, ticks, n))
      && (s.evaluation == NoData <==> On(rule, ticks, n) && tick.observation.None?)
      && (s.evaluation == Stale <==> On(rule, ticks, n) && tick.observation.Some? && rule.maxDataAge > 0
                                     && tick.now - TimeAt(ticks, n) > rule.maxDataAge)
  {
  }

  // ---------------------------------------------------------------- the start of an alert

  /** Without a duration, the first judged reading beyond the trigger threshold raises the alert. */
  lemma {:induction false} FiresAtOnceIff(rule: Rule, ticks: seq<Tick>, n: nat)
    requires n < |ticks| && rule.forDuration <= 0 && !IsFiring(rule, ticks, n)
    ensures FiresAt(rule, ticks, n) <==> Judged(rule, ticks, n) && Crossed(rule, ValueAt(ticks, n))
    ensures FiresAt(rule, ticks, n) <==> IsFiring(rule, ticks, n + 1)
  {
    LastSeenIsStored(rule, ticks, n);
    NeverPending(rule, ticks, n);
  }

  lemma {:induction false} NeverPending(rule: Rule, ticks: seq<Tick>, n: nat)
    requires n <= |ticks| && rule.forDuration <= 0
    ensures !IsPending(rule, ticks, n)
  {
    if n == 0 {
    } else {
      NeverPending(rule, ticks, n - 1);
      assert StateAfter(rule, ticks, n) == AlertRuns.Result(rule, ticks, n - 1).state;
    }
  }

  /** A firing event names the reading that raised the alert. */
  lemma {:induction false} FiringIsRecorded(rule: Rule, ticks: seq<Tick>, n: nat)
    requires n < |ticks| && FiresAt(rule, ticks, n)
    ensures Judged(rule, ticks, n) && Crossed(rule, ValueAt(ticks, n)) && IsFiring(rule, ticks, n + 1)
    ensures AlertRuns.Result(rule, ticks, n).event
      == Some(Event(FiringEvent, ThresholdCrossed, Some(ValueAt(ticks, n)), Some(TimeAt(ticks, n))))
  {
    LastSeenIsStored(rule, ticks, n);
  }

  /** From tick s to tick n rule and device stay on and no alert is up. */
  ghost predicate Quiet(rule: Rule, ticks: seq<Tick>, s: nat, n: nat) {
    s <= n < |ticks| && forall i :: s <= i <= n ==> On(rule, ticks, i) && !IsFiring(rule, ticks, i)
  }

  /** A trigger that holds from tick s on: the rule waits, from s or earlier. */
  lemma {:induction false} SustainedWaits(rule: Rule, ticks: seq<Tick>, s: nat, n: nat)
    requires rule.forDuration > 0 && TimesNeverGoBack(rule, ticks)
    requires Sustained(rule, ticks, s, n) && Quiet(rule, ticks, s, n)
    ensures StateAfter(rule, ticks, n).status == Pending && StateAfter(rule, ticks, n).pendingSince.Some?
    ensures StateAfter(rule, ticks, n).pendingSince.value <= TimeAt(ticks, s)
    decreases n
  {
    if n - 1 == s {
      WaitBegins(rule, ticks, s);
    } else {
      SustainedWaits(rule, ticks, s, n - 1);
      WaitGoesOn(rule, ticks, s, n - 1);
    }
  }

  lemma {:induction false} WaitBegins(rule: Rule, ticks: seq<Tick>, s: nat)
    requires rule.forDuration > 0 && TimesNeverGoBack(rule, ticks) && s < |ticks|
    requires Counted(rule, ticks, s) && Triggers(rule, ValueAt(ticks, s))
    requires !IsFiring(rule, ticks, s) && !IsFiring(rule, ticks, s + 1)
    ensures StateAfter(rule, ticks, s + 1).status == Pending && StateAfter(rule, ticks, s + 1).pendingSince.Some?
    ensures StateAfter(rule, ticks, s + 1).pendingSince.value <= TimeAt(ticks, s)
  {
    LastSeenIsStored(rule, ticks, s);
    StatusIsSet(rule, ticks, s);
    if IsPending(rule, ticks, s) {
      var start := PendingIsSustained(rule, ticks, s);
      assert TimeAt(ticks, start) <= TimeAt(ticks, s);
    }
  }

  lemma {:induction false} WaitGoesOn(rule: Rule, ticks: seq<Tick>, s: nat, n: nat)
    requires n < |ticks| && Sustained(rule, ticks, s, n + 1) && s < n && On(rule, ticks, n)
    requires StateAfter(rule, ticks, n).status == Pending && StateAfter(rule, ticks, n).pendingSince.Some?
    requires !IsFiring(rule, ticks, n + 1)
    ensures StateAfter(rule, ticks, n + 1).status == Pending
    ensures StateAfter(rule, ticks, n + 1).pendingSince == StateAfter(rule, ticks, n).pendingSince
  {
    LastSeenIsStored(rule, ticks, n);
    if Counted(rule, ticks, n) {
      assert Triggers(rule, ValueAt(ticks, n));
      assert !AfterGap(rule, LastSeen(rule, ticks, n), ticks[n].observation.value);
    }
  }

  /** So a trigger that held for the duration does raise the alert. */
  lemma {:induction false} SustainedFires(rule: Rule, ticks: seq<Tick>, s: nat, n: nat)
    requires rule.forDuration > 0 && TimesNeverGoBack(rule, ticks)
    requires Sustained(rule, ticks, s, n + 1) && s < n && Quiet(rule, ticks, s, n) && Counted(rule, ticks, n)
    requires TimeAt(ticks, n) - TimeAt(ticks, s) >= rule.forDuration
    ensures FiresAt(rule, ticks, n)
  {
    LastSeenIsStored(rule, ticks, n);
    SustainedWaits(rule, ticks, s, n);
    assert !AfterGap(rule, LastSeen(rule, ticks, n), ticks[n].observation.value);
  }

  lemma {:induction false} WaitedQuietly(rule: Rule, ticks: seq<Tick>, n: nat) returns (s: nat)
    requires n <= |ticks| && IsPending(rule, ticks, n)
    ensures s < n && Sustained(rule, ticks, s, n) && StateAfter(rule, ticks, n).pendingSince == Some(TimeAt(ticks, s))
    ensures forall i :: s <= i < n ==> On(rule, ticks, i) && !IsFiring(rule, ticks, i)
  {
    var before := StateAfter(rule, ticks, n - 1);
    LastSeenIsStored(rule, ticks, n - 1);
    assert StateAfter(rule, ticks, n) == AlertRuns.Result(rule, ticks, n - 1).state;
    if Counted(rule, ticks, n - 1) {
      if before.status != Pending || AfterGap(rule, before.lastValueAt, ticks[n - 1].observation.value) {
        s := n - 1;
      } else {
        s := WaitedQuietly(rule, ticks, n - 1);
      }
    } else {
      s := WaitedQuietly(rule, ticks, n - 1);
    }
  }

  /**
   An alert is raised exactly when the trigger has held for the rule's duration: every
   judged reading of a stretch crossed the threshold, no two of them too far apart, and
   rule and device stayed on meanwhile.
   */
  lemma {:induction false} FiresIff(rule: Rule, ticks: seq<Tick>, n: nat)
    requires rule.forDuration > 0 && n < |ticks| && TimesNeverGoBack(rule, ticks)
    ensures FiresAt(rule, ticks, n) <==> HeldLongEnough(rule, ticks, n)
  {
    if FiresAt(rule, ticks, n) {
      LastSeenIsStored(rule, ticks, n);
      var s := WaitedQuietly(rule, ticks, n);
      assert Held(rule, ticks, s, n);
    }
    if HeldLongEnough(rule, ticks, n) {
      var s: nat :| Held(rule, ticks, s, n);
      SustainedFires(rule, ticks, s, n);
    }
  }

  ghost predicate HeldLongEnough(rule: Rule, ticks: seq<Tick>, n: nat) {
    exists s: nat :: Held(rule, ticks, s, n)
  }

  ghost predicate Held(rule: Rule, ticks: seq<Tick>, s: nat, n: nat) {
    && s < n < |ticks| && Quiet(rule, ticks, s, n) && Judged(rule, ticks, s) && Judged(rule, ticks, n)
    && TimeAt(ticks, n) - TimeAt(ticks, s) >= rule.forDuration
    && (forall i :: s <= i <= n && Judged(rule, ticks, i) ==> Crossed(rule, ValueAt(ticks, i)))
    && (forall i :: s < i <= n && Judged(rule, ticks, i) && LastSeen(rule, ticks, i).Some? && rule.maxDataAge > 0 ==>
          TimeAt(ticks, i) - LastSeen(rule, ticks, i).value <= rule.maxDataAge)
  }

  // ---------------------------------------------------------------- when it started and ended

  /** The time of the last evaluation that caused an event of this kind. */
  function LastEvent(rule: Rule, ticks: seq<Tick>, n: nat, kind: EventType): Option<int>
    requires n <= |ticks|
  {
    if n == 0 then None
    else
      var event := AlertRuns.Result(rule, ticks, n - 1).event;
      if event.Some? && event.value.kind == kind then Some(ticks[n - 1].now) else LastEvent(rule, ticks, n - 1, kind)
  }

  /** FiredAt dates the last firing; ResolvedAt the last resolution, unless an alert is up again. */
  lemma {:induction false} AlertsAreDated(rule: Rule, ticks: seq<Tick>, n: nat)
    requires n <= |ticks|
    ensures StateAfter(rule, ticks, n).firedAt == LastEvent(rule, ticks, n, FiringEvent)
    ensures StateAfter(rule, ticks, n).resolvedAt
      == if IsFiring(rule, ticks, n) then None else LastEvent(rule, ticks, n, ResolvedEvent)
  {
    if n == 0 {
    } else {
      AlertsAreDated(rule, ticks, n - 1);
    }
  }
}
