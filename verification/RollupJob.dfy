/**
 The maintenance job as it runs (cmd/hm-db-maint/main.go:21-48, 67-108): each
 statement upserts its table row by row, in sequence. The job's tables are those
 of a run, so everything proved of runs holds of the job.
 */
module RollupJob {
  import opened FiniteSums
  import opened Minutes
  import opened Rollup
  import opened RollupRuns
  import opened Wrappers

  method Sum(keys: set<Key>, f: Key -> real) returns (total: real)
    ensures total == SumOver(keys, f)
  {
    var todo := keys;
    total := 0.0;
    while todo != {}
      invariant total + SumOver(todo, f) == SumOver(keys, f)
      decreases todo
    {
      var k :| k in todo;
      SumRemove(todo, f, k);
      total, todo := total + f(k), todo - {k};
    }
  }

  /** avg and count of every column over one group of minutes. */
  method AverageRow(columns: set<string>, minute: MinuteTable, keys: set<Key>) returns (row: map<string, Cell>)
    ensures row == map metric | metric in columns :: MinuteCell(minute, keys, metric)
  {
    var todo := columns;
    row := map[];
    while todo != {}
      invariant todo <= columns
      invariant row == map metric | metric in columns - todo :: MinuteCell(minute, keys, metric)
      decreases todo
    {
      var metric :| metric in todo;
      var total := Sum(keys, ValueIn(minute, metric));
      var n := Sum(keys, PresentIn(minute, metric));
      row, todo := row[metric := Average(total, n)], todo - {metric};
    }
  }

  /** The weighted average and the summed count of every column over one group of hours. */
  method WeightedRow(columns: set<string>, source: RollupTable, keys: set<Key>) returns (row: map<string, Cell>)
    ensures row == map metric | metric in columns :: WeightedCell(source, keys, metric)
  {
    var todo := columns;
    row := map[];
    while todo != {}
      invariant todo <= columns
      invariant row == map metric | metric in columns - todo :: WeightedCell(source, keys, metric)
      decreases todo
    {
      var metric :| metric in todo;
      var total := Sum(keys, ProductIn(source, metric));
      var n := Sum(keys, CountIn(source, metric));
      var cell := Weighted(total, n, SomeProduct(source, keys, metric), SomeCount(source, keys, metric));
      row, todo := row[metric := cell], todo - {metric};
    }
  }

  method UpsertFromMinutes(columns: set<string>, target: RollupTable, minute: MinuteTable, width: int, bound: int)
    returns (table: RollupTable)
    requires width > 0
    ensures table == target + FromMinutes(columns, minute, width, bound)
  {
    var keys := Since(minute.Keys, bound);
    var todo := Buckets(keys, width);
    table := target;
    while todo != {}
      invariant todo <= Buckets(keys, width)
      invariant table == target + Upserted(FromMinutes(columns, minute, width, bound), todo)
      decreases todo
    {
      var b :| b in todo;
      var row := AverageRow(columns, minute, Group(keys, BucketKey(width), b));
      NextUpsert(target, FromMinutes(columns, minute, width, bound), todo, b, row);
      table, todo := table[b := row], todo - {b};
    }
  }

  method UpsertFromRollup(columns: set<string>, target: RollupTable, source: RollupTable, width: int, bound: int)
    returns (table: RollupTable)
    requires width > 0
    ensures table == target + FromRollup(columns, source, width, bound)
  {
    var keys := Since(source.Keys, bound);
    var todo := Buckets(keys, width);
    table := target;
    while todo != {}
      invariant todo <= Buckets(keys, width)
      invariant table == target + Upserted(FromRollup(columns, source, width, bound), todo)
      decreases todo
    {
      var b :| b in todo;
      var row := WeightedRow(columns, source, Group(keys, BucketKey(width), b));
      NextUpsert(target, FromRollup(columns, source, width, bound), todo, b, row);
      table, todo := table[b := row], todo - {b};
    }
  }

  /** The rows of a statement that are no longer to do. */
  ghost function Upserted(rows: RollupTable, todo: set<Key>): RollupTable { rows - todo }

  lemma {:induction false} NextUpsert(target: RollupTable, rows: RollupTable, todo: set<Key>, b: Key,
                                      row: map<string, Cell>)
    requires b in todo && todo <= rows.Keys && row == rows[b]
    ensures (target + Upserted(rows, todo))[b := row] == target + Upserted(rows, todo - {b})
  {
  }

  method EarliestTime(keys: set<Key>) returns (ts: int)
    requires keys != {}
    ensures IsEarliest(keys, ts)
  {
    var first :| first in keys;
    var todo := keys - {first};
    ts := first.ts;
    while todo != {}
      invariant todo <= keys && IsEarliest(keys - todo, ts)
      decreases todo
    {
      var k :| k in todo;
      todo := todo - {k};
      if k.ts < ts {
        ts := k.ts;
      }
    }
    assert keys - todo == keys;
  }

  class Maintenance {
    const settings: Settings
    var tables: Tables
    ghost var actions: seq<Action>

    ghost predicate Valid()
      reads this
    {
      tables == Run(settings, actions)
    }

    constructor (s: Settings)
      ensures Valid() && settings == s && actions == []
    {
      settings, tables, actions := s, EMPTY, [];
    }

    /** A collector's upsert. */
    method StoreMinute(key: Key, values: map<string, real>)
      requires Valid()
      modifies this
      ensures Valid() && actions == old(actions) + [Store(key, values)]
    {
      tables := tables.(minute := Merged(tables.minute, key, values));
      NextAction(settings, actions, Store(key, values));
      actions := actions + [Store(key, values)];
    }

    /** Stores the cutoff once; min(ts) is taken while no cutoff is stored. */
    method EnsureAccuracyCutoff(now: int) returns (cutoff: int)
      ensures cutoff == CutoffOf(tables, now)
    {
      if tables.cutoff.Some? {
        return tables.cutoff.value;
      }
      var first := now;
      if tables.minute.Keys != {} {
        first := EarliestTime(tables.minute.Keys);
        assert first == Earliest(tables.minute.Keys);
      }
      return Bucket(DAY, first) + DAY;
    }

    method RefreshRollups(c: Clock)
      modifies this`tables
      ensures tables == Refreshed(old(tables), settings, c, CutoffOf(old(tables), c.cutoff))
    {
      var columns, lookback := settings.columns, settings.lookback;
      var cutoff := EnsureAccuracyCutoff(c.cutoff);
      var hour := UpsertFromMinutes(columns, tables.hour, tables.minute, HOUR, Bound(c.hour, lookback, cutoff));
      var halfDay := UpsertFromRollup(columns, tables.halfDay, hour, HALF_DAY, Bound(c.halfDay, lookback, cutoff));
      var day := UpsertFromRollup(columns, tables.day, hour, DAY, Bound(c.day, lookback, cutoff));
      tables := Tables(tables.minute, hour, halfDay, day, Some(cutoff));
    }

    /** One cycle: refresh, then drop old minutes. What the settings promise of runs, the job keeps. */
    method RunCycle(c: Clock)
      requires Valid() && TimeAdvances(actions + [Maintain(c)])
      modifies this
      ensures Valid() && actions == old(actions) + [Maintain(c)]
      ensures settings.lookback <= settings.retain ==>
        AllFaithful(settings.columns, tables,
                    Bound(c.retention, settings.lookback, CutoffOf(old(tables), c.cutoff)))
    {
      RefreshRollups(c);
      tables := Retained(tables, settings, c.retention);
      NextAction(settings, actions, Maintain(c));
      actions := actions + [Maintain(c)];
      if settings.lookback <= settings.retain {
        assert actions[..|actions| - 1] == old(actions);
        CycleIsFaithful(settings, actions);
      }
    }
  }
}
