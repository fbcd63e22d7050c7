/**
 What the numbers in a rollup row are, read off the stored values one by one
 (cmd/hm-db-maint/main.go:67-147): the mean and the number of a device's values
 between two times, which are given here in plain seconds.
 */
module RollupMeans {
  import opened FiniteSums
  import opened Minutes
  import opened Rollup
  import opened RollupRuns
  import opened Wrappers

  // ---------------------------------------------------------------- means of listed values

  function Total(values: seq<real>): real {
    if values == [] then 0.0 else Total(values[..|values| - 1]) + values[|values| - 1]
  }

  /** Their mean and number, NULL and 0 when there are none. */
  function MeanOf(values: seq<real>): Cell {
    if values == [] then Cell(None, Some(0.0))
    else Cell(Some(Total(values) / |values| as real), Some(|values| as real))
  }

  /** The minutes among `part` that carry the metric, each once. */
  ghost predicate Lists(keys: seq<Key>, minute: MinuteTable, part: set<Key>, metric: string) {
    && (forall k :: k in keys <==> k in part && k in minute && metric in minute[k])
    && (forall i, j :: 0 <= i < j < |keys| ==> keys[i] != keys[j])
  }

  function ValuesAt(minute: MinuteTable, keys: seq<Key>, metric: string): seq<real>
    requires forall k :: k in keys ==> k in minute && metric in minute[k]
  {
    seq(|keys|, i requires 0 <= i < |keys| => minute[keys[i]][metric])
  }

  lemma {:induction false} SumsOfListed(minute: MinuteTable, part: set<Key>, metric: string, keys: seq<Key>)
    requires Lists(keys, minute, part, metric)
    ensures SumOver(part, ValueIn(minute, metric)) == Total(ValuesAt(minute, keys, metric))
    ensures SumOver(part, PresentIn(minute, metric)) == |keys| as real
  {
    if keys == [] {
      NoneIsZero(minute, part, metric);
    } else {
      var n := |keys| - 1;
      var k := keys[n];
      assert keys[..n] + [k] == keys;
      SumRemove(part, ValueIn(minute, metric), k);
      SumRemove(part, PresentIn(minute, metric), k);
      SumsOfListed(minute, part - {k}, metric, keys[..n]);
      assert ValuesAt(minute, keys, metric)[..n] == ValuesAt(minute, keys[..n], metric);
    }
  }

  /** What avg and count yield over a set of minutes. */
  lemma {:induction false} CellIsMean(minute: MinuteTable, part: set<Key>, metric: string, keys: seq<Key>)
    requires Lists(keys, minute, part, metric)
    ensures MinuteCell(minute, part, metric) == MeanOf(ValuesAt(minute, keys, metric))
  {
    SumsOfListed(minute, part, metric, keys);
  }

  /** Average times count. */
  function SumIn(c: Cell): real {
    if c.average.Some? && c.count.Some? then c.average.value * c.count.value else 0.0
  }

  /** One minute more: it counts once, with its value, if it carries the metric. */
  lemma {:induction false} OneMinuteMore(minute: MinuteTable, part: set<Key>, metric: string, k: Key)
    requires k in minute && k !in part
    ensures var before, after := MinuteCell(minute, part, metric), MinuteCell(minute, part + {k}, metric);
      && before.count.Some? && after.count.Some?
      && (metric !in minute[k] ==> after == before)
      && (metric in minute[k] ==> after.count.value == before.count.value + 1.0)
      && (metric in minute[k] ==> after.average.Some? && SumIn(after) == SumIn(before) + minute[k][metric])
  {
    var total, n := SumOver(part, ValueIn(minute, metric)), SumOver(part, PresentIn(minute, metric));
    assert part + {k} - {k} == part;
    SumRemove(part + {k}, ValueIn(minute, metric), k);
    SumRemove(part + {k}, PresentIn(minute, metric), k);
    NoneIsZero(minute, part, metric);
    SumInAverage(total, n);
    if metric in minute[k] {
      SumInAverage(total + minute[k][metric], n + 1.0);
    }
  }

  lemma {:induction false} SumInAverage(total: real, n: real)
    requires n >= 0.0 && (n == 0.0 ==> total == 0.0)
    ensures SumIn(Average(total, n)) == total
  {
    if n > 0.0 {
      AverageTimesCount(total, n);
    }
  }

  // ---------------------------------------------------------------- which minutes make a row

  predicate IsRowWidth(width: int) { width == 3600 || width == 43200 || width == 86400 }

  /** A bucket is the stretch of its width that starts at a multiple of it. */
  lemma {:induction false} BucketHolds(width: int, ts: int, start: int)
    requires IsRowWidth(width)
    ensures Bucket(width, ts) == start <==> start % width == 0 && start <= ts < start + width
  {
    if width == 3600 {
      HourHolds(ts, start);
    } else if width == 43200 {
      HalfDayHolds(ts, start);
    } else {
      DayHolds(ts, start);
    }
  }

  lemma {:induction false} HourHolds(ts: int, start: int)
    ensures ts - ts % 3600 == start <==> start % 3600 == 0 && start <= ts < start + 3600
  {
  }

  lemma {:induction false} HalfDayHolds(ts: int, start: int)
    ensures ts - ts % 43200 == start <==> start % 43200 == 0 && start <= ts < start + 43200
  {
  }

  lemma {:induction false} DayHolds(ts: int, start: int)
    ensures ts - ts % 86400 == start <==> start % 86400 == 0 && start <= ts < start + 86400
  {
  }

  /** The first time a statement takes: its bound, rounded up to a whole hour for half-days and days. */
  function FirstTaken(width: int, bound: int): int {
    if width == 3600 then bound else bound + 3599 - (bound + 3599) % 3600
  }

  /** The minutes of a bucket that a statement takes, in plain times. */
  ghost predicate InPart(width: int, bound: int, b: Key, k: Key) {
    k.mac == b.mac && b.ts <= k.ts < b.ts + width && k.ts >= FirstTaken(width, bound)
  }

  lemma {:induction false} PartHolds(minute: MinuteTable, width: int, bound: int, b: Key)
    requires IsRowWidth(width) && b.ts % width == 0
    ensures IsWidth(width)
    ensures forall k :: k in Taken(minute, width, bound, b) <==> k in minute && InPart(width, bound, b, k)
  {
    forall k | k in minute
      ensures k in Taken(minute, width, bound, b) <==> InPart(width, bound, b, k)
    {
      BucketHolds(width, k.ts, b.ts);
      HourStartsLater(k.ts, bound);
    }
  }

  lemma {:induction false} HourStartsLater(ts: int, bound: int)
    ensures ts - ts % 3600 >= bound <==> ts >= bound + 3599 - (bound + 3599) % 3600
  {
  }

  /** Rows start at multiples of their width. */
  lemma {:induction false} BucketsStartAtMultiples(minute: MinuteTable, width: int, bound: int, b: Key)
    requires IsRowWidth(width) && Taken(minute, width, bound, b) != {}
    ensures b.ts % width == 0
  {
    var k :| k in Taken(minute, width, bound, b);
    BucketHolds(width, k.ts, b.ts);
  }

  // ---------------------------------------------------------------- the rows themselves

  /** The times of a device at which the archive holds the metric, from one time on and before another. */
  ghost predicate ListsReadings(keys: seq<Key>, archive: MinuteTable, metric: string, mac: string, from: int, to: int) {
    && (forall k :: k in keys <==> k in archive && metric in archive[k] && k.mac == mac && from <= k.ts < to)
    && (forall i, j :: 0 <= i < j < |keys| ==> keys[i] != keys[j])
  }

  function Later(a: int, b: int): int { if a >= b then a else b }

  /** An hour row that the statement writes: the mean of the device's values in that hour, from the bound on. */
  lemma {:induction false} HourRowIsMean(columns: set<string>, minute: MinuteTable, rows: RollupTable, bound: int,
                                         b: Key, metric: string, keys: seq<Key>)
    requires rows == FromMinutes(columns, minute, HOUR, bound) && b in rows && metric in columns
    requires ListsReadings(keys, minute, metric, b.mac, Later(b.ts, bound), b.ts + 3600)
    ensures rows[b][metric] == MeanOf(ValuesAt(minute, keys, metric))
  {
    HourRow(columns, minute, bound, b);
    BucketsStartAtMultiples(minute, 3600, bound, b);
    PartIsMean(columns, minute, 3600, bound, b, rows[b], metric, keys);
  }

  lemma {:induction false} PartIsMean(columns: set<string>, minute: MinuteTable, width: int, bound: int, b: Key,
                                      row: map<string, Cell>, metric: string, keys: seq<Key>)
    requires IsRowWidth(width) && b.ts % width == 0 && metric in columns
    requires Averages(columns, minute, Taken(minute, width, bound, b), row)
    requires ListsReadings(keys, minute, metric, b.mac, Later(b.ts, FirstTaken(width, bound)), b.ts + width)
    ensures row[metric] == MeanOf(ValuesAt(minute, keys, metric))
  {
    PartHolds(minute, width, bound, b);
    CellIsMean(minute, Taken(minute, width, bound, b), metric, keys);
  }

  /**
   In every run, a row that the last cycle wrote holds the mean and the number of all values
   ever stored for the device between the statement's first time and the end of the bucket.
   */
  lemma {:induction false} RowIsMean(s: Settings, actions: seq<Action>, width: int, b: Key, metric: string,
                                     keys: seq<Key>)
    requires IsRowWidth(width)
    requires s.lookback <= s.retain && TimeAdvances(actions) && EndsInCycle(actions)
    requires b in LastRows(s, actions, width) && metric in s.columns
    requires ListsReadings(keys, Archive(actions), metric, b.mac,
                           Later(b.ts, FirstTaken(width, LastBound(s, actions, width))), b.ts + width)
    ensures var row := TableOf(Run(s, actions), width)[b];
      b.ts % width == 0 && row[metric] == MeanOf(ValuesAt(Archive(actions), keys, metric))
  {
    var bound, archive := LastBound(s, actions, width), Archive(actions);
    assert IsWidth(width);
    LastRowsAreMerged(s, actions, width);
    LastRowsAreParts(s, actions, width);
    BucketsStartAtMultiples(archive, width, bound, b);
    PartIsMean(s.columns, archive, width, bound, b, LastRows(s, actions, width)[b], metric, keys);
  }

  /** A row that is right holds the mean over its whole bucket. */
  lemma {:induction false} RightRowIsMean(columns: set<string>, minute: MinuteTable, width: int, b: Key,
                                          row: map<string, Cell>, metric: string, keys: seq<Key>)
    requires IsRowWidth(width)
    requires IsDirect(columns, minute, width, b, row) && metric in columns && b.ts % width == 0
    requires ListsReadings(keys, minute, metric, b.mac, b.ts, b.ts + width)
    ensures row[metric] == MeanOf(ValuesAt(minute, keys, metric))
  {
    forall k | k in minute ensures k in Members(minute, width, b) <==> k.mac == b.mac && b.ts <= k.ts < b.ts + width {
      BucketHolds(width, k.ts, b.ts);
    }
    CellIsMean(minute, Members(minute, width, b), metric, keys);
  }

  // ---------------------------------------------------------------- bounds, cutoff and retention

  /** A statement takes what is neither before now - lookback nor before the cutoff. */
  lemma {:induction false} BoundIsGreatest(now: int, lookback: int, cutoff: int, ts: int)
    ensures ts >= Bound(now, lookback, cutoff) <==> ts >= now - lookback && ts >= cutoff
  {
  }

  /** The first cutoff is the first midnight after every day that has the earliest minute, or now. */
  lemma {:induction false} CutoffIsNextMidnight(t: Tables, now: int)
    requires t.cutoff.None?
    ensures CutoffOf(t, now) % 86400 == 0
    ensures t.minute == map[] ==> CutoffOf(t, now) - 86400 <= now < CutoffOf(t, now)
    ensures t.minute != map[] ==>
      (forall k :: k in t.minute ==> CutoffOf(t, now) - 86400 <= k.ts)
      && exists k :: k in t.minute && k.ts < CutoffOf(t, now)
  {
    assert t.minute.Keys == {} <==> t.minute == map[];
    if t.minute.Keys != {} {
      var first := Earliest(t.minute.Keys);
      MidnightFollows(first);
      var k :| k in t.minute.Keys && k.ts == first;
    } else {
      MidnightFollows(now);
    }
  }

  lemma {:induction false} MidnightFollows(ts: int)
    ensures (Bucket(DAY, ts) + DAY) % 86400 == 0 && Bucket(DAY, ts) <= ts < Bucket(DAY, ts) + 86400
    ensures DAY == 86400
  {
  }

  /** Once stored, the cutoff stays. */
  lemma {:induction false} CutoffStays(s: Settings, actions: seq<Action>, n: nat)
    requires n <= |actions| && Run(s, actions[..n]).cutoff.Some?
    ensures Run(s, actions).cutoff == Run(s, actions[..n]).cutoff
  {
    if n == |actions| {
      assert actions[..n] == actions;
    } else {
      var before := actions[..|actions| - 1];
      assert before[..n] == actions[..n];
      CutoffStays(s, before, n);
    }
  }

  /** A cycle drops exactly the minutes that are older than the retention. */
  lemma {:induction false} CycleDropsOldMinutes(t: Tables, s: Settings, c: Clock)
    ensures forall k :: k in Cycle(t, s, c).minute <==> k in t.minute && c.retention - k.ts <= s.retain
    ensures forall k :: k in Cycle(t, s, c).minute ==> Cycle(t, s, c).minute[k] == t.minute[k]
  {
  }
}
