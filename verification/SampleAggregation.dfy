/**
 The minute windows of the IoT Orchestrator collector
 (cmd/hm-cisco-iot-orchestrator-collector/aggregate.go). The mutex makes every
 method one atomic step, so whatever `Valid` says holds over any interleaving of
 the MQTT and GATT threads.
 */
module SampleAggregation {
  import opened Minutes
  import opened OrderStatistics
  import opened SensorStore
  import opened Text
  import opened Wrappers

  datatype Reading = Reading(ts: int, mac: string, values: map<string, real>)
  datatype Aggregate = Aggregate(mac: string, window: int, samples: map<string, seq<real>>,
                                 last: Option<map<string, real>>)

  /** What reached the database: a flushed window, or a reading stored past the windows. */
  datatype Entry = Flushed(agg: Aggregate) | Backfilled(key: Key, values: map<string, real>)

  function WindowOf(r: Reading): Key { Key(r.ts - r.ts % MINUTE, r.mac) }

  function SamplesOf(samples: map<string, seq<real>>, metric: string): seq<real> {
    if metric in samples then samples[metric] else []
  }

  function Appended(samples: map<string, seq<real>>, values: map<string, real>): (r: map<string, seq<real>>)
    ensures forall m :: SamplesOf(r, m) == SamplesOf(samples, m) + if m in values then [values[m]] else []
  {
    map m | m in samples.Keys + values.Keys :: SamplesOf(samples, m) + if m in values then [values[m]] else []
  }

  predicate IsEmpty(agg: Aggregate) {
    forall m | m in agg.samples :: agg.samples[m] == []
  }

  /** The median of every metric that has samples; the others stay NULL. */
  function Medians(agg: Aggregate): map<string, real> {
    map m | m in agg.samples && agg.samples[m] != [] :: Median(agg.samples[m])
  }

  function StoredKey(agg: Aggregate): Key {
    Key(agg.window - agg.window % MINUTE, NormalizeMAC(agg.mac))
  }

  // ---------------------------------------------------------------- histories

  function WriteOf(e: Entry): Write {
    match e
    case Flushed(agg) => Write(StoredKey(agg), Medians(agg))
    case Backfilled(key, values) => Write(key, values)
  }

  function Writes(log: seq<Entry>): (r: seq<Write>)
    ensures |r| == |log|
  {
    if log == [] then [] else Writes(log[..|log| - 1]) + [WriteOf(log[|log| - 1])]
  }

  /** The samples of one window and metric that were not suppressed, in order of arrival. */
  function Admitted(readings: seq<Reading>, key: Key, metric: string): seq<real> {
    if readings == [] then []
    else
      var r := readings[|readings| - 1];
      Admitted(readings[..|readings| - 1], key, metric)
      + if WindowOf(r) == key && metric in r.values then [r.values[metric]] else []
  }

  function LastAdmitted(readings: seq<Reading>, key: Key): Option<map<string, real>> {
    if readings == [] then None
    else if WindowOf(readings[|readings| - 1]) == key then Some(readings[|readings| - 1].values)
    else LastAdmitted(readings[..|readings| - 1], key)
  }

  /** The samples of one window and metric that successful flushes took, in order. */
  function Taken(log: seq<Entry>, key: Key, metric: string): seq<real> {
    if log == [] then []
    else
      var e := log[|log| - 1];
      Taken(log[..|log| - 1], key, metric)
      + if e.Flushed? && Key(e.agg.window, e.agg.mac) == key then SamplesOf(e.agg.samples, metric) else []
  }

  function Open(windows: map<Key, Aggregate>, key: Key, metric: string): seq<real> {
    if key in windows then SamplesOf(windows[key].samples, metric) else []
  }

  ghost predicate WellKeyed(windows: map<Key, Aggregate>) {
    forall k :: k in windows ==> windows[k].mac == k.mac && windows[k].window == k.ts && windows[k].last.Some?
  }

  /** Every admitted sample was flushed or is still open, exactly once and in order. */
  ghost predicate Conserves(windows: map<Key, Aggregate>, admitted: seq<Reading>, log: seq<Entry>) {
    forall key, metric :: Taken(log, key, metric) + Open(windows, key, metric) == Admitted(admitted, key, metric)
  }

  /** Duplicates are judged against the last admitted reading of an open window. */
  ghost predicate Remembers(windows: map<Key, Aggregate>, admitted: seq<Reading>) {
    forall k :: k in windows ==> windows[k].last == LastAdmitted(admitted, k)
  }

  /** The median from the latest flushed window that carries the metric, unless a backfill came later. */
  function LatestStored(log: seq<Entry>, key: Key, metric: string): Option<real> {
    if log == [] then None
    else
      match log[|log| - 1]
      case Flushed(agg) =>
        var samples := SamplesOf(agg.samples, metric);
        if StoredKey(agg) == key && samples != [] then Some(Median(samples))
        else LatestStored(log[..|log| - 1], key, metric)
      case Backfilled(k, values) =>
        if k == key && metric in values then Some(values[metric]) else LatestStored(log[..|log| - 1], key, metric)
  }

  lemma {:induction false} LatestStoredIsLatestWrite(log: seq<Entry>, key: Key, metric: string)
    ensures Latest(Writes(log), key, metric) == LatestStored(log, key, metric)
  {
    if log == [] {
    } else {
      LatestStoredIsLatestWrite(log[..|log| - 1], key, metric);
      assert Writes(log)[..|log| - 1] == Writes(log[..|log| - 1]);
    }
  }

  // ---------------------------------------------------------------- the collector

  class Collector {
    const db: Store
    var windows: map<Key, Aggregate>
    ghost var admitted: seq<Reading>
    ghost var log: seq<Entry>

    ghost predicate Valid()
      reads this, db
    {
      && WellKeyed(windows)
      && Conserves(windows, admitted, log)
      && Remembers(windows, admitted)
      && db.minutes == Replay(Writes(log))
    }

    constructor (store: Store)
      requires store.minutes == map[]
      ensures Valid() && db == store && windows == map[] && admitted == [] && log == []
    {
      db, windows, admitted, log := store, map[], [], [];
    }

    method Add(r: Reading)
      requires Valid()
      modifies this
      ensures Valid() && log == old(log)
      ensures admitted == if WindowOf(r) in old(windows) && old(windows)[WindowOf(r)].last == Some(r.values)
                          then old(admitted) else old(admitted) + [r]
      ensures windows.Keys == old(windows).Keys + {WindowOf(r)}
    {
      var key := WindowOf(r);
      var agg := if key in windows then windows[key] else Aggregate(r.mac, key.ts, map[], None);
      if agg.last == Some(r.values) {
        return;
      }
      agg := agg.(last := Some(r.values), samples := Appended(agg.samples, r.values));
      AdmissionConserves(windows, admitted, log, r, agg);
      windows := windows[key := agg];
      admitted := admitted + [r];
    }

    /** Writes one window's medians; the window itself is left to the caller. */
    method Flush(key: Key, agg: Aggregate, fails: bool) returns (wrote: bool, ok: bool)
      requires Valid() && key in windows && windows[key] == agg
      modifies this`log, db`minutes
      ensures ok == !FlushFails(agg, fails) && wrote == (ok && !IsEmpty(agg))
      ensures log == if wrote then old(log) + [Flushed(agg)] else old(log)
      ensures db.minutes == Replay(Writes(log))
    {
      if IsEmpty(agg) {
        return false, true;
      }
      var medians := Medians(agg);
      NotEmptyHasMedian(agg);
      var r := db.UpsertMinute(Some(agg.window), agg.mac, medians, fails);
      if r.Err? {
        return false, false;
      }
      log := log + [Flushed(agg)];
      WritesGrow(old(log), Flushed(agg));
      return true, true;
    }

    /** Flushes and drops one window, or keeps it when the write fails; `order` lists those written since `start`. */
    method FlushWindow(key: Key, fails: bool, ghost start: map<Key, Aggregate>, ghost logged: seq<Entry>,
                       ghost order: seq<Key>)
      returns (wrote: bool, ok: bool)
      requires Valid() && key in windows && key in start && windows[key] == start[key]
      requires Logged(start, windows, logged, log, order)
      modifies this`log, this`windows, db`minutes
      ensures Valid()
      ensures ok == !FlushFails(start[key], fails) && wrote == (ok && !IsEmpty(start[key]))
      ensures windows == if ok then old(windows) - {key} else old(windows)
      ensures Logged(start, windows, logged, log, if wrote then order + [key] else order)
    {
      var agg := windows[key];
      wrote, ok := Flush(key, agg, fails);
      LoggedNext(start, windows, logged, old(log), order, key, ok, wrote);
      if ok {
        FlushConserves(windows, admitted, old(log), key, wrote);
        windows := windows - {key};
      }
    }

    /** Visits the windows before `currentWindow` in any order; `fails` holds those whose write fails. */
    method FlushCompleted(currentWindow: int, fails: set<Key>) returns (flushed: nat, ok: bool, ghost order: seq<Key>)
      requires Valid()
      modifies this`log, this`windows, db`minutes
      ensures Valid() && admitted == old(admitted)
      ensures windows == Kept(old(windows), currentWindow, fails)
      ensures ok == NoneFailed(old(windows), {}, currentWindow, fails)
      ensures Logged(old(windows), windows, old(log), log, order) && flushed == |order|
      ensures NothingErased(old(db.minutes), db.minutes)
    {
      var todo := windows.Keys;
      ghost var kept := Kept(windows, currentWindow, fails).Keys;
      flushed, ok, order := 0, true, [];
      NothingLogged(windows, kept, log);
      while todo != {}
        invariant Valid() && admitted == old(admitted) && todo <= old(windows).Keys && flushed == |order|
        invariant windows == Remaining(old(windows), kept, todo)
        invariant Logged(old(windows), windows, old(log), log, order)
        invariant ok == NoneFailed(old(windows), todo, currentWindow, fails)
        decreases todo
      {
        var key :| key in todo;
        ghost var left := todo;
        todo := todo - {key};
        NoneFailedNext(windows, old(windows), left, key, currentWindow, fails);
        if windows[key].window < currentWindow {
          var wrote, done := FlushWindow(key, key in fails, old(windows), old(log), order);
          if !done {
            ok := false;
          } else if wrote {
            flushed, order := flushed + 1, order + [key];
          }
        }
        RemainingNext(old(windows), kept, left, key);
      }
      NothingRemains(old(windows), Kept(old(windows), currentWindow, fails));
      ExtensionErasesNothing(old(log), log);
    }

    method FlushAll(fails: set<Key>) returns (ok: bool, ghost order: seq<Key>)
      requires Valid()
      modifies this`log, this`windows, db`minutes
      ensures Valid() && admitted == old(admitted)
      ensures windows == Failing(old(windows), fails) && ok == (windows == map[])
      ensures Logged(old(windows), windows, old(log), log, order)
      ensures NothingErased(old(db.minutes), db.minutes)
    {
      var todo := windows.Keys;
      ok, order := true, [];
      NothingLogged(windows, Failing(windows, fails).Keys, log);
      while todo != {}
        invariant Valid() && admitted == old(admitted) && todo <= old(windows).Keys
        invariant windows == Remaining(old(windows), Failing(old(windows), fails).Keys, todo)
        invariant Logged(old(windows), windows, old(log), log, order)
        invariant ok == AllWritten(old(windows), todo, fails)
        decreases todo
      {
        var key :| key in todo;
        AllWrittenNext(old(windows), todo, key, fails);
        todo := todo - {key};
        var wrote, done := FlushWindow(key, key in fails, old(windows), old(log), order);
        order := if wrote then order + [key] else order;
        if !done {
          ok := false;
        }
      }
      NothingFails(old(windows), fails);
      ExtensionErasesNothing(old(log), log);
    }

    /** The GATT history backfill stores readings without a window and without the mutex. */
    method Backfill(ts: int, mac: string, values: map<string, real>, fails: bool) returns (stored: bool)
      requires Valid()
      modifies this`log, db`minutes
      ensures Valid()
      ensures stored ==> NormalizeMAC(mac) != ""
      ensures stored ==>
        log == old(log) + [Backfilled(Key(ts - ts % MINUTE, NormalizeMAC(mac)), values)]
      ensures !stored ==> log == old(log) && db.minutes == old(db.minutes)
      ensures NothingErased(old(db.minutes), db.minutes)
    {
      var r := db.UpsertMinute(Some(ts), mac, values, fails);
      stored := r == Ok(true);
      if stored {
        var e := Backfilled(Key(ts - ts % MINUTE, NormalizeMAC(mac)), values);
        BackfillConserves(windows, admitted, log, e);
        WritesGrow(log, e);
        log := log + [e];
        ExtensionErasesNothing(old(log), log);
      }
    }
  }

  predicate FlushFails(agg: Aggregate, fails: bool) {
    !IsEmpty(agg) && (fails || NormalizeMAC(agg.mac) == "")
  }

  function Kept(windows: map<Key, Aggregate>, currentWindow: int, fails: set<Key>): map<Key, Aggregate> {
    map k | k in windows && (k.ts >= currentWindow || FlushFails(windows[k], k in fails)) :: windows[k]
  }

  /** The windows whose write fails. */
  function Failing(windows: map<Key, Aggregate>, fails: set<Key>): map<Key, Aggregate> {
    map k | k in windows && FlushFails(windows[k], k in fails) :: windows[k]
  }

  /** The windows that are left while `todo` is still to be visited and `kept` will stay. */
  ghost function Remaining(windows: map<Key, Aggregate>, kept: set<Key>, todo: set<Key>): map<Key, Aggregate> {
    map k | k in windows && (k in todo || k in kept) :: windows[k]
  }

  /** No window before `currentWindow` failed, apart from those still to be visited. */
  ghost predicate NoneFailed(windows: map<Key, Aggregate>, todo: set<Key>, currentWindow: int, fails: set<Key>) {
    forall k :: k in windows && k !in todo && k.ts < currentWindow ==> !FlushFails(windows[k], k in fails)
  }

  lemma {:induction false} NoneFailedNext(left: map<Key, Aggregate>, windows: map<Key, Aggregate>, todo: set<Key>,
                                          key: Key, currentWindow: int, fails: set<Key>)
    requires key in todo && key in windows && WellKeyed(left) && key in left
    ensures left[key].window == key.ts
    ensures NoneFailed(windows, todo - {key}, currentWindow, fails)
      == (NoneFailed(windows, todo, currentWindow, fails)
          && (key.ts < currentWindow ==> !FlushFails(windows[key], key in fails)))
  {
  }

  /** No window failed, apart from those still to be visited. */
  ghost predicate AllWritten(windows: map<Key, Aggregate>, todo: set<Key>, fails: set<Key>) {
    forall k :: k in windows && k !in todo ==> !FlushFails(windows[k], k in fails)
  }

  lemma {:induction false} AllWrittenNext(windows: map<Key, Aggregate>, todo: set<Key>, key: Key, fails: set<Key>)
    requires key in todo && key in windows && todo <= windows.Keys
    ensures AllWritten(windows, todo - {key}, fails)
      == (AllWritten(windows, todo, fails) && !FlushFails(windows[key], key in fails))
    ensures Remaining(windows, Failing(windows, fails).Keys, todo - {key})
      == if FlushFails(windows[key], key in fails) then Remaining(windows, Failing(windows, fails).Keys, todo)
        else Remaining(windows, Failing(windows, fails).Keys, todo) - {key}
  {
    RemainingNext(windows, Failing(windows, fails).Keys, todo, key);
  }

  lemma {:induction false} NothingFails(windows: map<Key, Aggregate>, fails: set<Key>)
    ensures AllWritten(windows, {}, fails) <==> Failing(windows, fails) == map[]
    ensures Remaining(windows, Failing(windows, fails).Keys, {}) == Failing(windows, fails)
  {
    if AllWritten(windows, {}, fails) {
      assert Failing(windows, fails).Keys == {};
    } else {
      var k :| k in windows && FlushFails(windows[k], k in fails);
      assert k in Failing(windows, fails);
    }
    NothingRemains(windows, Failing(windows, fails));
  }

  lemma {:induction false} NothingRemains(windows: map<Key, Aggregate>, kept: map<Key, Aggregate>)
    requires forall k :: k in kept ==> k in windows && kept[k] == windows[k]
    ensures Remaining(windows, kept.Keys, {}) == kept
  {
  }

  lemma {:induction false} RemainingNext(windows: map<Key, Aggregate>, kept: set<Key>, todo: set<Key>, key: Key)
    requires key in todo && todo <= windows.Keys
    ensures Remaining(windows, kept, todo - {key})
      == if key in kept then Remaining(windows, kept, todo) else Remaining(windows, kept, todo) - {key}
  {
  }

  function EntriesOf(windows: map<Key, Aggregate>, order: seq<Key>): (r: seq<Entry>)
    requires forall k :: k in order ==> k in windows
    ensures |r| == |order| && forall i :: 0 <= i < |order| ==> r[i] == Flushed(windows[order[i]])
  {
    seq(|order|, i requires 0 <= i < |order| => Flushed(windows[order[i]]))
  }

  /** The windows that were dropped and held samples, each once. */
  ghost predicate ListsDropped(before: map<Key, Aggregate>, after: map<Key, Aggregate>, order: seq<Key>) {
    && (forall k :: k in order <==> k in before && k !in after && !IsEmpty(before[k]))
    && (forall i, j :: 0 <= i < j < |order| ==> order[i] != order[j])
  }

  /** The log keeps what it held and grows by exactly those windows. */
  ghost predicate Logged(before: map<Key, Aggregate>, after: map<Key, Aggregate>, log: seq<Entry>, log': seq<Entry>,
                         order: seq<Key>) {
    ListsDropped(before, after, order) && log' == log + EntriesOf(before, order)
  }

  lemma {:induction false} NothingLogged(windows: map<Key, Aggregate>, kept: set<Key>, log: seq<Entry>)
    ensures Logged(windows, windows, log, log, []) && windows == Remaining(windows, kept, windows.Keys)
  {
  }

  /** One window flushed or left, the other windows as they were. */
  lemma {:induction false} LoggedNext(windows: map<Key, Aggregate>, left: map<Key, Aggregate>, log: seq<Entry>,
                                      log': seq<Entry>, order: seq<Key>, key: Key, done: bool, wrote: bool)
    requires key in left && key in windows && left[key] == windows[key]
    requires wrote == (done && !IsEmpty(left[key])) && Logged(windows, left, log, log', order)
    ensures Logged(windows, if done then left - {key} else left, log,
                   if wrote then log' + [Flushed(left[key])] else log', if wrote then order + [key] else order)
  {
    if wrote {
      DroppedNext(windows, left, order, key);
      assert EntriesOf(windows, order + [key]) == EntriesOf(windows, order) + [Flushed(windows[key])];
    }
  }

  lemma {:induction false} DroppedNext(windows: map<Key, Aggregate>, left: map<Key, Aggregate>, order: seq<Key>,
                                       key: Key)
    requires key in left && key in windows && left[key] == windows[key] && !IsEmpty(windows[key])
    requires ListsDropped(windows, left, order)
    ensures ListsDropped(windows, left - {key}, order + [key])
  {
  }

  /** No column that holds a value becomes NULL. */
  ghost predicate NothingErased(before: MinuteTable, after: MinuteTable) {
    forall key, metric :: Column(before, key, metric).Some? ==> Column(after, key, metric).Some?
  }

  lemma {:induction false} ExtensionErasesNothing(before: seq<Entry>, after: seq<Entry>)
    requires before <= after
    ensures NothingErased(Replay(Writes(before)), Replay(Writes(after)))
  {
    var more := after[|before|..];
    assert after == before + more;
    WritesConcat(before, more);
    forall key, metric | Column(Replay(Writes(before)), key, metric).Some?
      ensures Column(Replay(Writes(after)), key, metric).Some?
    {
      ColumnNeverReturnsToNull(Writes(before), Writes(more), key, metric);
    }
  }

  lemma {:induction false} WritesConcat(a: seq<Entry>, b: seq<Entry>)
    ensures Writes(a + b) == Writes(a) + Writes(b)
  {
    if b == [] {
      assert a + b == a;
    } else {
      WritesConcat(a, b[..|b| - 1]);
      assert (a + b)[..|a + b| - 1] == a + b[..|b| - 1];
    }
  }

  lemma {:induction false} NotEmptyHasMedian(agg: Aggregate)
    requires !IsEmpty(agg)
    ensures Medians(agg) != map[]
  {
    var m :| m in agg.samples && agg.samples[m] != [];
    assert m in Medians(agg);
  }

  lemma {:induction false} WritesGrow(log: seq<Entry>, e: Entry)
    ensures Replay(Writes(log + [e])) == Merged(Replay(Writes(log)), WriteOf(e).key, WriteOf(e).values)
  {
  }

  lemma {:induction false} FlushConserves(windows: map<Key, Aggregate>, admitted: seq<Reading>, log: seq<Entry>,
                                          key: Key, wrote: bool)
    requires Conserves(windows, admitted, log) && WellKeyed(windows) && key in windows
    requires !wrote ==> IsEmpty(windows[key])
    ensures Conserves(windows - {key}, admitted, if wrote then log + [Flushed(windows[key])] else log)
  {
  }

  lemma {:induction false} BackfillConserves(windows: map<Key, Aggregate>, admitted: seq<Reading>, log: seq<Entry>,
                                             e: Entry)
    requires Conserves(windows, admitted, log) && e.Backfilled?
    ensures Conserves(windows, admitted, log + [e])
  {
  }

  lemma {:induction false} AdmissionConserves(windows: map<Key, Aggregate>, admitted: seq<Reading>, log: seq<Entry>,
                                              r: Reading, agg: Aggregate)
    requires Conserves(windows, admitted, log) && Remembers(windows, admitted)
    requires agg.samples == Appended(if WindowOf(r) in windows then windows[WindowOf(r)].samples else map[], r.values)
    requires agg.last == Some(r.values)
    ensures Conserves(windows[WindowOf(r) := agg], admitted + [r], log)
    ensures Remembers(windows[WindowOf(r) := agg], admitted + [r])
  {
  }

  // ---------------------------------------------------------------- what the database holds

  /** Each stored column is the median of the latest flushed window that carries it. */
  lemma {:induction false} ColumnsAreLatestMedians(minutes: MinuteTable, log: seq<Entry>, key: Key, metric: string)
    requires minutes == Replay(Writes(log))
    ensures Column(minutes, key, metric) == LatestStored(log, key, metric)
  {
    LatestStoredIsLatestWrite(log, key, metric);
    ColumnIsLatestWrite(Writes(log), key, metric);
  }
}
