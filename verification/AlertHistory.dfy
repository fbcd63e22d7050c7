/**
 The stored history of one fixed rule, among any other rules and failed transactions
 (cmd/hm-sensor-alert-worker/main.go:143-259): it is a run of the evaluator over the
 evaluations that committed, so what holds of runs holds of the event table.
 */
module AlertHistory {
  import opened AlertEvaluator
  import opened AlertRuns
  import W = AlertWorker
  import opened Sequences
  import opened Wrappers

  predicate IsFor(q: W.Request, id: int) { q.rule.id == id }

  /** The latest observation counts while rule and device are enabled. */
  function TickOf(q: W.Request): Tick {
    Tick(q.now, q.rule.deviceEnabled, if q.rule.rule.enabled && q.rule.deviceEnabled then q.latest else None)
  }

  /** The committed evaluations of one rule. */
  function TicksOf(requests: seq<W.Request>, id: int): seq<Tick> {
    if requests == [] then []
    else
      var before, q := TicksOf(Front(requests), id), Last(requests);
      if IsFor(q, id) && W.Commits(W.Run(Front(requests)), q) then before + [TickOf(q)] else before
  }

  ghost predicate RuleStays(requests: seq<W.Request>, id: int, rule: Rule) {
    forall i :: 0 <= i < |requests| && IsFor(requests[i], id) ==> requests[i].rule.rule == rule
  }

  datatype Dated = Dated(event: Event, occurredAt: int)

  /** The stored events of one rule, oldest first. */
  function EventsOf(rows: seq<W.EventRow>, id: int): seq<Dated> {
    if rows == [] then []
    else EventsOf(Front(rows), id) + if Last(rows).ruleId == id then [DatedRow(Last(rows))] else []
  }

  function DatedRow(row: W.EventRow): Dated { Dated(row.event, row.occurredAt) }

  /** The events of the first n ticks of a run, at the times of their evaluations. */
  function TickEvents(rule: Rule, ticks: seq<Tick>, n: nat): seq<Dated>
    requires n <= |ticks|
  {
    if n == 0 then []
    else
      var event := AlertRuns.Result(rule, ticks, n - 1).event;
      TickEvents(rule, ticks, n - 1) + if event.Some? then [Dated(event.value, ticks[n - 1].now)] else []
  }

  lemma {:induction false} StateIsLocal(rule: Rule, ticks: seq<Tick>, more: seq<Tick>, n: nat)
    requires n <= |ticks|
    ensures StateAfter(rule, ticks + more, n) == StateAfter(rule, ticks, n)
    ensures TickEvents(rule, ticks + more, n) == TickEvents(rule, ticks, n)
  {
    if n == 0 {
    } else {
      StateIsLocal(rule, ticks, more, n - 1);
    }
  }

  lemma {:induction false} NextTick(rule: Rule, ticks: seq<Tick>, tick: Tick, next: seq<Tick>)
    requires next == ticks + [tick]
    ensures var result :=
      Evaluation(tick.now, rule, tick.deviceEnabled, StateAfter(rule, ticks, |ticks|), tick.observation);
      && AlertRuns.Result(rule, next, |ticks|) == result
      && StateAfter(rule, next, |next|) == result.state
      && TickEvents(rule, next, |next|)
        == TickEvents(rule, ticks, |ticks|)
          + if result.event.Some? then [Dated(result.event.value, tick.now)] else []
  {
    StateIsLocal(rule, ticks, [tick], |ticks|);
  }

  lemma {:induction false} EventsNext(rows: seq<W.EventRow>, row: W.EventRow, id: int)
    ensures EventsOf(rows + [row], id) == EventsOf(rows, id) + if row.ruleId == id then [DatedRow(row)] else []
  {
    assert Front(rows + [row]) == rows;
  }

  /** The stored state and events of a rule that stays as it is are those of a run over its committed evaluations. */
  lemma {:induction false} HistoryIsRun(requests: seq<W.Request>, id: int, rule: Rule)
    requires RuleStays(requests, id, rule)
    ensures var ticks := TicksOf(requests, id);
      && W.Load(W.Run(requests).states, id) == StateAfter(rule, ticks, |ticks|)
      && EventsOf(W.Run(requests).events, id) == TickEvents(rule, ticks, |ticks|)
  {
    if requests == [] {
    } else {
      var before, q := Front(requests), Last(requests);
      HistoryIsRun(before, id, rule);
      HistoryStep(W.Run(before), q, id, rule, TicksOf(before, id));
    }
  }

  lemma {:induction false} HistoryStep(t: W.Tables, q: W.Request, id: int, rule: Rule, ticks: seq<Tick>)
    requires IsFor(q, id) ==> q.rule.rule == rule
    requires W.Load(t.states, id) == StateAfter(rule, ticks, |ticks|)
    requires EventsOf(t.events, id) == TickEvents(rule, ticks, |ticks|)
    ensures var next := if IsFor(q, id) && W.Commits(t, q) then ticks + [TickOf(q)] else ticks;
      && W.Load(W.After(t, q).states, id) == StateAfter(rule, next, |next|)
      && EventsOf(W.After(t, q).events, id) == TickEvents(rule, next, |next|)
  {
    if W.Commits(t, q) {
      var event := W.Evaluated(t, q).event;
      if event.Some? {
        EventsNext(t.events, W.EventRow(q.rule.id, event.value, q.now), id);
      } else {
        assert W.After(t, q).events == t.events;
      }
      if IsFor(q, id) {
        NextTick(rule, ticks, TickOf(q), ticks + [TickOf(q)]);
      }
    }
  }

  lemma {:induction false} EventsAreCounted(rule: Rule, ticks: seq<Tick>, n: nat)
    requires n <= |ticks|
    ensures |TickEvents(rule, ticks, n)| == EventCount(rule, ticks, n)
  {
    if n == 0 {
    } else {
      EventsAreCounted(rule, ticks, n - 1);
    }
  }

  lemma {:induction false} TicksAreEnabled(requests: seq<W.Request>, id: int)
    requires forall i :: 0 <= i < |requests| && IsFor(requests[i], id) ==> requests[i].rule.deviceEnabled
    ensures forall i :: 0 <= i < |TicksOf(requests, id)| ==> TicksOf(requests, id)[i].deviceEnabled
  {
    if requests == [] {
    } else {
      assert forall i :: 0 <= i < |Front(requests)| ==> Front(requests)[i] == requests[i];
      TicksAreEnabled(Front(requests), id);
      assert Last(requests) == requests[|requests| - 1];
    }
  }

  /** The swings that the stored events of an enabled rule need. */
  lemma {:induction false} StoredEventsNeedSwings(requests: seq<W.Request>, id: int, rule: Rule, stored: nat)
    requires RuleStays(requests, id, rule) && rule.enabled && HasHysteresis(rule)
    requires forall i :: 0 <= i < |requests| && IsFor(requests[i], id) ==> requests[i].rule.deviceEnabled
    requires stored == |EventsOf(W.Run(requests).events, id)|
    ensures var ticks := TicksOf(requests, id);
      exists firing, at :: Paid(rule, CountedValues(rule, ticks, |ticks|), stored, firing, at)
  {
    var ticks := TicksOf(requests, id);
    HistoryIsRun(requests, id, rule);
    EventsAreCounted(rule, ticks, |ticks|);
    TicksAreEnabled(requests, id);
    var at := SwingsPayForEvents(rule, ticks, |ticks|);
    var firing := StateAfter(rule, ticks, |ticks|).status == Firing;
    assert Paid(rule, CountedValues(rule, ticks, |ticks|), stored, firing, at);
  }

  /** However transactions fail: the stored events of an enabled rule are paid for by the readings it was judged on. */
  lemma {:induction false} StoredChatterIsBounded(requests: seq<W.Request>, id: int, rule: Rule, stored: nat)
    requires RuleStays(requests, id, rule) && rule.enabled && HasHysteresis(rule)
    requires forall i :: 0 <= i < |requests| && IsFor(requests[i], id) ==> requests[i].rule.deviceEnabled
    requires stored == |EventsOf(W.Run(requests).events, id)|
    ensures var ticks := TicksOf(requests, id);
      TotalVariation(CountedValues(rule, ticks, |ticks|)) >= (stored - 1) as real * Gap(rule)
  {
    var values := CountedValues(rule, TicksOf(requests, id), |TicksOf(requests, id)|);
    StoredEventsNeedSwings(requests, id, rule, stored);
    var firing, at :| Paid(rule, values, stored, firing, at);
    PaidVariation(rule, values, stored, firing, at);
  }

  /** A firing event that is stored comes after a sustained trigger in the rule's committed evaluations. */
  lemma {:induction false} StoredFiringWasSustained(before: seq<W.Request>, q: W.Request, id: int, rule: Rule)
    returns (s: nat)
    requires RuleStays(before + [q], id, rule) && rule.forDuration > 0
    requires IsFor(q, id) && W.Commits(W.Run(before), q)
    requires W.Evaluated(W.Run(before), q).event.Some? && W.Evaluated(W.Run(before), q).event.value.kind == FiringEvent
    requires TimesNeverGoBack(rule, TicksOf(before + [q], id))
    ensures var ticks := TicksOf(before + [q], id);
      var n := |ticks| - 1;
      && n >= 0 && ticks[n] == TickOf(q) && Sustained(rule, ticks, s, n + 1) && Counted(rule, ticks, n)
      && TimeAt(ticks, n) - TimeAt(ticks, s) >= rule.forDuration
  {
    assert Front(before + [q]) == before && (before + [q])[|before|] == q;
    assert forall i :: 0 <= i < |before| ==> before[i] == (before + [q])[i];
    HistoryIsRun(before, id, rule);
    var ticks := TicksOf(before, id);
    NextTick(rule, ticks, TickOf(q), TicksOf(before + [q], id));
    s := FiringWasSustained(rule, TicksOf(before + [q], id), |ticks|);
  }
}
