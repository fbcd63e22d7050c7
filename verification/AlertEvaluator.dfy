/**
 The sensor alert evaluator (internal/sensoralert/evaluator.go). Times and
 durations are integers, sensor values are reals.
 */
module AlertEvaluator {
  import opened Wrappers

  datatype Direction = Above | Below
  datatype Status = Unset | Normal | Pending | Firing
  datatype EvaluationStatus = EvaluationOk | Stale | NoData | Disabled
  datatype Rule = Rule(direction: Direction, trigger: real, clear: real, forDuration: int, maxDataAge: int,
                       enabled: bool)
  datatype State = State(status: Status, pendingSince: Option<int>, firedAt: Option<int>, resolvedAt: Option<int>,
                         lastValue: Option<real>, lastValueAt: Option<int>, lastEvaluatedAt: Option<int>,
                         evaluation: EvaluationStatus)
  datatype Observation = Observation(time: int, value: real)
  datatype EventType = FiringEvent | ResolvedEvent
  datatype Reason = ThresholdCrossed | ThresholdCleared | RuleDisabled | DeviceDisabled
  datatype Event = Event(kind: EventType, reason: Reason, value: Option<real>, valueAt: Option<int>)
  datatype Outcome = Outcome(state: State, event: Option<Event>)

  /** The state of a rule that was never evaluated. */
  const INITIAL := State(Normal, None, None, None, None, None, None, NoData)

  predicate Triggers(rule: Rule, value: real) {
    if rule.direction == Below then value <= rule.trigger else value >= rule.trigger
  }

  predicate Clears(rule: Rule, value: real) {
    if rule.direction == Below then value >= rule.clear else value <= rule.clear
  }

  function DisabledReason(ruleEnabled: bool): Reason {
    if !ruleEnabled then RuleDisabled else DeviceDisabled
  }

  // ---------------------------------------------------------------- specification

  /** An observation too old to judge. */
  predicate IsStale(rule: Rule, now: int, o: Observation) {
    rule.maxDataAge > 0 && now - o.time > rule.maxDataAge
  }

  predicate IsNewer(lastValueAt: Option<int>, o: Observation) {
    lastValueAt.None? || o.time > lastValueAt.value
  }

  /** Fresh, newer observations alone move the status. */
  predicate Counts(rule: Rule, now: int, lastValueAt: Option<int>, o: Observation) {
    !IsStale(rule, now, o) && IsNewer(lastValueAt, o)
  }

  /** The observation came so long after the previous one that a pending alert starts again. */
  predicate AfterGap(rule: Rule, lastValueAt: Option<int>, o: Observation) {
    lastValueAt.Some? && rule.maxDataAge > 0 && o.time - lastValueAt.value > rule.maxDataAge
  }

  function Started(status: Status): Status { if status == Unset then Normal else status }

  /** The state machine proper: what a counted observation does to status and pending start. */
  datatype Phase = Phase(status: Status, since: Option<int>)

  function Advance(rule: Rule, p: Phase, lastValueAt: Option<int>, o: Observation): Phase {
    match p.status
    case Firing => if Clears(rule, o.value) then Phase(Normal, None) else p
    case Pending =>
      var since := if p.since.Some? then p.since.value else o.time;
      if !Triggers(rule, o.value) then Phase(Normal, None)
      else if AfterGap(rule, lastValueAt, o) then Phase(Pending, Some(o.time))
      else if o.time - since >= rule.forDuration then Phase(Firing, Some(since))
      else Phase(Pending, Some(since))
    case _ =>
      if !Triggers(rule, o.value) then Phase(Normal, p.since)
      else if rule.forDuration <= 0 then Phase(Firing, p.since)
      else Phase(Pending, Some(o.time))
  }

  predicate Active(rule: Rule, deviceEnabled: bool) { rule.enabled && deviceEnabled }

  /** Status and pending start after one evaluation. */
  function NextPhase(now: int, rule: Rule, deviceEnabled: bool, current: State,
                     observation: Option<Observation>): Phase {
    var p := Phase(Started(current.status), current.pendingSince);
    if !Active(rule, deviceEnabled) then Phase(Normal, None)
    else if observation.Some? && Counts(rule, now, current.lastValueAt, observation.value) then
      Advance(rule, p, current.lastValueAt, observation.value)
    else p
  }

  /** An event is a change into or out of Firing, and nothing else is. */
  function EventOf(rule: Rule, deviceEnabled: bool, current: State, next: Status,
                   observation: Option<Observation>): Option<Event> {
    if current.status != Firing && next == Firing && observation.Some? then
      Some(Event(FiringEvent, ThresholdCrossed, Some(observation.value.value), Some(observation.value.time)))
    else if current.status == Firing && next != Firing then
      if !Active(rule, deviceEnabled) || observation.None? then
        Some(Event(ResolvedEvent, DisabledReason(rule.enabled), current.lastValue, current.lastValueAt))
      else
        Some(Event(ResolvedEvent, ThresholdCleared, Some(observation.value.value), Some(observation.value.time)))
    else None
  }

  function Verdict(now: int, rule: Rule, deviceEnabled: bool, observation: Option<Observation>): EvaluationStatus {
    if !Active(rule, deviceEnabled) then Disabled
    else if observation.None? then NoData
    else if IsStale(rule, now, observation.value) then Stale
    else EvaluationOk
  }

  function Evaluation(now: int, rule: Rule, deviceEnabled: bool, current: State,
                      observation: Option<Observation>): Outcome {
    var phase := NextPhase(now, rule, deviceEnabled, current, observation);
    var event := EventOf(rule, deviceEnabled, current, phase.status, observation);
    var seen := Active(rule, deviceEnabled) && observation.Some?;
    Outcome(
      State(phase.status, phase.since,
            if event.Some? && event.value.kind == FiringEvent then Some(now) else current.firedAt,
            if event.None? then current.resolvedAt else if event.value.kind == FiringEvent then None else Some(now),
            if seen then Some(observation.value.value) else current.lastValue,
            if seen then Some(observation.value.time) else current.lastValueAt,
            Some(now),
            Verdict(now, rule, deviceEnabled, observation)),
      event)
  }

  // ---------------------------------------------------------------- the evaluator

  method Evaluate(now: int, rule: Rule, deviceEnabled: bool, current: State, observation: Option<Observation>)
    returns (result: Outcome)
    ensures result == Evaluation(now, rule, deviceEnabled, current, observation)
  {
    var state := current;
    if state.status == Unset {
      state := state.(status := Normal);
    }
    state := state.(lastEvaluatedAt := Some(now));

    if !rule.enabled || !deviceEnabled {
      var event: Option<Event> := None;
      if state.status == Firing {
        event := Some(Event(ResolvedEvent, DisabledReason(rule.enabled), state.lastValue, state.lastValueAt));
        state := state.(resolvedAt := Some(now));
      }
      state := state.(status := Normal, pendingSince := None, evaluation := Disabled);
      return Outcome(state, event);
    }

    if observation.None? {
      state := state.(evaluation := NoData);
      return Outcome(state, None);
    }
    var o := observation.value;
    state := state.(lastValue := Some(o.value), lastValueAt := Some(o.time));
    if rule.maxDataAge > 0 && now - o.time > rule.maxDataAge {
      state := state.(evaluation := Stale);
      return Outcome(state, None);
    }
    state := state.(evaluation := EvaluationOk);
    if current.lastValueAt.Some? && !(o.time > current.lastValueAt.value) {
      return Outcome(state, None);
    }

    if state.status == Firing {
      if Clears(rule, o.value) {
        state := state.(status := Normal, pendingSince := None, resolvedAt := Some(now));
        return Outcome(state, Some(Event(ResolvedEvent, ThresholdCleared, Some(o.value), Some(o.time))));
      }
    } else if state.status == Pending {
      if !Triggers(rule, o.value) {
        state := state.(status := Normal, pendingSince := None);
        return Outcome(state, None);
      }
      if state.pendingSince.None? {
        state := state.(pendingSince := Some(o.time));
      }
      if current.lastValueAt.Some? && rule.maxDataAge > 0 && o.time - current.lastValueAt.value > rule.maxDataAge {
        state := state.(pendingSince := Some(o.time));
        return Outcome(state, None);
      }
      if o.time - state.pendingSince.value >= rule.forDuration {
        state := state.(status := Firing, firedAt := Some(now), resolvedAt := None);
        return Outcome(state, Some(Event(FiringEvent, ThresholdCrossed, Some(o.value), Some(o.time))));
      }
    } else {
      state := state.(status := Normal);
      if Triggers(rule, o.value) {
        if rule.forDuration <= 0 {
          state := state.(status := Firing, firedAt := Some(now), resolvedAt := None);
          return Outcome(state, Some(Event(FiringEvent, ThresholdCrossed, Some(o.value), Some(o.time))));
        }
        state := state.(status := Pending, pendingSince := Some(o.time));
      }
    }
    return Outcome(state, None);
  }
}
