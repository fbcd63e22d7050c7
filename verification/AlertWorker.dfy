/**
 One evaluation of a stored rule (cmd/hm-sensor-alert-worker/main.go:143-259): load
 the state, evaluate, save the state and its event in one transaction. A rule's
 content may differ from one evaluation to the next, as edits make it.
 */
module AlertWorker {
  import opened AlertEvaluator
  import opened SensorMetrics
  import opened Wrappers

  datatype DbRule = DbRule(id: int, metric: string, deviceEnabled: bool, rule: Rule)
  datatype EventRow = EventRow(ruleId: int, event: Event, occurredAt: int)
  datatype Tables = Tables(states: map<int, State>, events: seq<EventRow>)

  /** The step of the transaction at which the database fails, if it does. */
  datatype Fault = NoFault | LoadFails | ObservationFails | SaveFails | InsertFails | CommitFails

  /** A request to evaluate: the rule as stored now, the latest observation, and what goes wrong. */
  datatype Request = Request(rule: DbRule, now: int, latest: Option<Observation>, fault: Fault)

  function Load(states: map<int, State>, id: int): State {
    if id in states then states[id] else INITIAL
  }

  /** The observation is only read while rule and device are enabled. */
  function Observed(r: DbRule, latest: Option<Observation>): Option<Observation> {
    if Active(r.rule, r.deviceEnabled) then latest else None
  }

  function Evaluated(t: Tables, q: Request): Outcome {
    Evaluation(q.now, q.rule.rule, q.rule.deviceEnabled, Load(t.states, q.rule.id), Observed(q.rule, q.latest))
  }

  /** Whether the transaction commits: a fault counts only at a step that is reached. */
  predicate Commits(t: Tables, q: Request) {
    && q.rule.metric in COLUMNS
    && (match q.fault
        case NoFault => true
        case ObservationFails => !Active(q.rule.rule, q.rule.deviceEnabled)
        case InsertFails => Evaluated(t, q).event.None?
        case _ => false)
  }

  function After(t: Tables, q: Request): Tables {
    if !Commits(t, q) then t
    else
      var result := Evaluated(t, q);
      Tables(t.states[q.rule.id := result.state],
             t.events + if result.event.Some? then [EventRow(q.rule.id, result.event.value, q.now)] else [])
  }

  class Database {
    var states: map<int, State>
    var events: seq<EventRow>

    constructor ()
      ensures Contents() == Tables(map[], [])
    {
      states, events := map[], [];
    }

    function Contents(): Tables
      reads this
    {
      Tables(states, events)
    }

    method EvaluateDBRule(rule: DbRule, now: int, latest: Option<Observation>, fault: Fault) returns (ok: bool)
      modifies this
      ensures var q := Request(rule, now, latest, fault);
        Contents() == After(old(Contents()), q) && ok == Commits(old(Contents()), q)
    {
      if rule.metric !in COLUMNS {
        return false;
      }
      var txStates, txEvents := states, events;
      if fault == LoadFails {
        return false;
      }
      var state := Load(txStates, rule.id);
      var observation: Option<Observation> := None;
      if rule.rule.enabled && rule.deviceEnabled {
        if fault == ObservationFails {
          return false;
        }
        observation := latest;
      }
      var result := Evaluate(now, rule.rule, rule.deviceEnabled, state, observation);
      if fault == SaveFails {
        return false;
      }
      txStates := txStates[rule.id := result.state];
      if result.event.Some? {
        if fault == InsertFails {
          return false;
        }
        txEvents := txEvents + [EventRow(rule.id, result.event.value, now)];
      }
      if fault == CommitFails {
        return false;
      }
      states, events := txStates, txEvents;
      return true;
    }
  }

  // ---------------------------------------------------------------- when a request takes effect

  /** Whether the transaction comes to the step that fails. */
  predicate Reached(t: Tables, q: Request)
    requires q.fault != NoFault
  {
    && (q.fault == ObservationFails ==> q.rule.rule.enabled && q.rule.deviceEnabled)
    && (q.fault == InsertFails ==> Evaluated(t, q).event.Some?)
  }

  /** A request commits unless its metric is unknown or a step that it comes to fails. */
  lemma {:induction false} CommitsIff(t: Tables, q: Request)
    ensures Commits(t, q) <==> q.rule.metric in COLUMNS && (q.fault == NoFault || !Reached(t, q))
  {
  }

  // ---------------------------------------------------------------- the log agrees with the state

  /** The tables after a list of requests, for any rules in any order. */
  function Run(requests: seq<Request>): Tables {
    if requests == [] then Tables(map[], [])
    else After(Run(requests[..|requests| - 1]), requests[|requests| - 1])
  }

  /** The event types logged for one rule, oldest first. */
  function LogOf(events: seq<EventRow>, id: int): seq<EventType> {
    if events == [] then []
    else
      var last := events[|events| - 1];
      LogOf(events[..|events| - 1], id) + if last.ruleId == id then [last.event.kind] else []
  }

  ghost predicate Alternates(log: seq<EventType>) {
    forall i :: 0 <= i < |log| ==> log[i] == if i % 2 == 0 then FiringEvent else ResolvedEvent
  }

  function Occurrences(log: seq<EventType>, kind: EventType): nat {
    if log == [] then 0 else Occurrences(log[..|log| - 1], kind) + if log[|log| - 1] == kind then 1 else 0
  }

  /** The fields that belong to a status, and only to it. */
  ghost predicate FieldsMatchStatus(s: State) {
    && s.status != Unset
    && (s.status == Firing ==> s.firedAt.Some? && s.resolvedAt.None?)
    && (s.status == Pending ==> s.pendingSince.Some?)
    && (s.status == Normal ==> s.pendingSince.None?)
  }

  ghost predicate LogAgrees(t: Tables, id: int) {
    var log, s := LogOf(t.events, id), Load(t.states, id);
    && Alternates(log)
    && FieldsMatchStatus(s)
    && |log| % 2 == if s.status == Firing then 1 else 0
  }

  lemma {:induction false} LogGrows(events: seq<EventRow>, row: EventRow, id: int)
    ensures LogOf(events + [row], id) == LogOf(events, id) + if row.ruleId == id then [row.event.kind] else []
  {
  }

  /** In an alternating log the two kinds differ by the parity of its length. */
  lemma {:induction false} AlternationBalance(log: seq<EventType>)
    requires Alternates(log)
    ensures Occurrences(log, FiringEvent) - Occurrences(log, ResolvedEvent) == |log| % 2
  {
    if log == [] {
    } else {
      AlternationBalance(log[..|log| - 1]);
    }
  }

  lemma {:induction false} AgreementStep(t: Tables, q: Request, id: int)
    requires LogAgrees(t, id)
    ensures LogAgrees(After(t, q), id)
  {
    if Commits(t, q) {
      var result := Evaluated(t, q);
      if result.event.None? {
        assert After(t, q).events == t.events;
      } else {
        LogGrows(t.events, EventRow(q.rule.id, result.event.value, q.now), id);
      }
      if q.rule.id == id {
        EvaluationKeepsAgreement(LogOf(t.events, id), Load(t.states, id), q, result);
      }
    }
  }

  lemma {:induction false} EvaluationKeepsAgreement(log: seq<EventType>, s: State, q: Request, result: Outcome)
    requires Alternates(log) && FieldsMatchStatus(s) && |log| % 2 == (if s.status == Firing then 1 else 0)
    requires result == Evaluation(q.now, q.rule.rule, q.rule.deviceEnabled, s, Observed(q.rule, q.latest))
    ensures FieldsMatchStatus(result.state)
    ensures var log' := if result.event.Some? then log + [result.event.value.kind] else log;
      Alternates(log') && |log'| % 2 == if result.state.status == Firing then 1 else 0
  {
  }

  /** Over any run, every rule's log alternates from firing on, and its balance is its status. */
  lemma {:induction false} EventLogAgreesWithState(requests: seq<Request>, id: int)
    ensures var log, s := LogOf(Run(requests).events, id), Load(Run(requests).states, id);
      && Alternates(log)
      && FieldsMatchStatus(s)
      && Occurrences(log, FiringEvent) - Occurrences(log, ResolvedEvent) == if s.status == Firing then 1 else 0
  {
    LogAlwaysAgrees(requests, id);
    AlternationBalance(LogOf(Run(requests).events, id));
  }

  lemma {:induction false} LogAlwaysAgrees(requests: seq<Request>, id: int)
    ensures LogAgrees(Run(requests), id)
  {
    if requests == [] {
    } else {
      LogAlwaysAgrees(requests[..|requests| - 1], id);
      AgreementStep(Run(requests[..|requests| - 1]), requests[|requests| - 1], id);
    }
  }

  /** A failed evaluation leaves no trace, and so may simply be repeated. */
  lemma {:induction false} FailedRequestsVanish(before: seq<Request>, q: Request, after: seq<Request>)
    requires !Commits(Run(before), q)
    ensures Run(before + [q] + after) == Run(before + after)
  {
    if after == [] {
      assert (before + [q])[..|before|] == before;
      assert before + [q] + after == before + [q] && before + after == before;
    } else {
      var n := |after| - 1;
      FailedRequestsVanish(before, q, after[..n]);
      assert (before + [q] + after)[..|before| + 1 + n] == before + [q] + after[..n];
      assert (before + after)[..|before| + n] == before + after[..n];
    }
  }
}
