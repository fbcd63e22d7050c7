/**
 What the maintenance job's generated rollup statements compute
 (cmd/hm-db-maint/main.go:67-147): hours from minutes, then half-days and days
 from hours, each row an average and a count per metric. Times are seconds, and
 counts are whole numbers kept as reals so that they can weight averages.

 Every statement writes a row from the part of its bucket that its WHERE clause
 takes. That part is the main notion here: a row is right iff the part lacks no value.
 */
module Rollup {
  import opened FiniteSums
  import opened Minutes
  import opened Wrappers

  datatype Cell = Cell(average: Option<real>, count: Option<real>)

  type RollupTable = map<Key, map<string, Cell>>

  const HOUR := 3600
  const HALF_DAY := 12 * 3600
  const DAY := 24 * 3600

  predicate IsCoarse(width: int) { width == HALF_DAY || width == DAY }

  predicate IsWidth(width: int) { width == HOUR || IsCoarse(width) }

  // ---------------------------------------------------------------- the generated statements

  /** time_bucket: the bucket of a timestamp, from midnight UTC on. */
  function Bucket(width: int, ts: int): int
    requires width > 0
  {
    ts - ts % width
  }

  function BucketKey(width: int): Key -> Key
    requires width > 0
  {
    (k: Key) => Key(Bucket(width, k.ts), k.mac)
  }

  /** WHERE ts >= bound. */
  function Since(keys: set<Key>, bound: int): set<Key> {
    set k | k in keys && k.ts >= bound
  }

  function ValueIn(minute: MinuteTable, metric: string): Key -> real {
    (k: Key) => if k in minute && metric in minute[k] then minute[k][metric] else 0.0
  }

  function PresentIn(minute: MinuteTable, metric: string): Key -> real {
    (k: Key) => if k in minute && metric in minute[k] then 1.0 else 0.0
  }

  /** avg(metric), count(metric) over a set of minutes. */
  ghost function MinuteCell(minute: MinuteTable, keys: set<Key>, metric: string): Cell {
    Average(SumOver(keys, ValueIn(minute, metric)), SumOver(keys, PresentIn(minute, metric)))
  }

  function Average(total: real, n: real): Cell {
    Cell(if n > 0.0 then Some(total / n) else None, Some(n))
  }

  function CountIn(source: RollupTable, metric: string): Key -> real {
    (k: Key) => if HasCount(source, k, metric) then source[k][metric].count.value else 0.0
  }

  function ProductIn(source: RollupTable, metric: string): Key -> real {
    (k: Key) =>
      if HasProduct(source, k, metric) then source[k][metric].average.value * source[k][metric].count.value else 0.0
  }

  predicate HasCount(source: RollupTable, k: Key, metric: string) {
    k in source && metric in source[k] && source[k][metric].count.Some?
  }

  predicate HasProduct(source: RollupTable, k: Key, metric: string) {
    HasCount(source, k, metric) && source[k][metric].average.Some?
  }

  predicate SomeCount(source: RollupTable, keys: set<Key>, metric: string) {
    exists k | k in keys :: HasCount(source, k, metric)
  }

  predicate SomeProduct(source: RollupTable, keys: set<Key>, metric: string) {
    exists k | k in keys :: HasProduct(source, k, metric)
  }

  /** The count-weighted average, and the sum of the counts; a sum over no value is NULL. */
  ghost function WeightedCell(source: RollupTable, keys: set<Key>, metric: string): Cell {
    Weighted(SumOver(keys, ProductIn(source, metric)), SumOver(keys, CountIn(source, metric)),
             SomeProduct(source, keys, metric), SomeCount(source, keys, metric))
  }

  function Weighted(total: real, n: real, someProduct: bool, someCount: bool): Cell {
    Cell(if n > 0.0 && someProduct then Some(total / n) else None, if someCount then Some(n) else None)
  }

  /** GROUP BY bucket, mac. */
  function Buckets(keys: set<Key>, width: int): set<Key>
    requires width > 0
  {
    set k | k in keys :: BucketKey(width)(k)
  }

  ghost function FromMinutes(columns: set<string>, minute: MinuteTable, width: int, bound: int): RollupTable
    requires width > 0
  {
    var keys := Since(minute.Keys, bound);
    map b | b in Buckets(keys, width) ::
      map metric | metric in columns :: MinuteCell(minute, Group(keys, BucketKey(width), b), metric)
  }

  ghost function FromRollup(columns: set<string>, source: RollupTable, width: int, bound: int): RollupTable
    requires width > 0
  {
    var keys := Since(source.Keys, bound);
    map b | b in Buckets(keys, width) ::
      map metric | metric in columns :: WeightedCell(source, Group(keys, BucketKey(width), b), metric)
  }

  // ---------------------------------------------------------------- what a row ought to hold

  /** The minutes of one bucket and device. */
  ghost function Members(minute: MinuteTable, width: int, b: Key): set<Key>
    requires width > 0
  {
    Group(minute.Keys, BucketKey(width), b)
  }

  /** The time by which a statement's WHERE clause sees a minute: its own, or that of its hour. */
  function SourceTime(width: int, ts: int): int { if width == HOUR then ts else Bucket(HOUR, ts) }

  /** The part of a bucket that a statement takes. */
  ghost function Taken(minute: MinuteTable, width: int, bound: int, b: Key): set<Key>
    requires width > 0
  {
    set k | k in Members(minute, width, b) && SourceTime(width, k.ts) >= bound
  }

  /** A row that holds the mean and number of the non-null values of some minutes, NULL when there are none. */
  ghost predicate Averages(columns: set<string>, minute: MinuteTable, keys: set<Key>, row: map<string, Cell>) {
    row.Keys == columns && forall metric :: metric in columns ==> row[metric] == MinuteCell(minute, keys, metric)
  }

  /** A row that is right: it averages all the minutes of its bucket. */
  ghost predicate IsDirect(columns: set<string>, minute: MinuteTable, width: int, b: Key, row: map<string, Cell>)
    requires width > 0
  {
    Averages(columns, minute, Members(minute, width, b), row)
  }

  /** No minute of the bucket that the statement leaves out carries a value. */
  ghost predicate DropsNothing(columns: set<string>, minute: MinuteTable, width: int, bound: int, b: Key)
    requires width > 0
  {
    forall k :: k in Members(minute, width, b) - Taken(minute, width, bound, b) ==> minute[k].Keys !! columns
  }

  /** From the bound on, a rollup holds exactly the buckets that have minutes, each read directly. */
  ghost predicate Faithful(columns: set<string>, minute: MinuteTable, width: int, table: RollupTable, bound: int)
    requires width > 0
  {
    forall b: Key :: b.ts >= bound ==>
      (b in table <==> Members(minute, width, b) != {})
      && (b in table ==> IsDirect(columns, minute, width, b, table[b]))
  }

  // ---------------------------------------------------------------- hours

  lemma {:induction false} BucketStartsFirst(width: int, ts: int)
    requires IsWidth(width)
    ensures Bucket(width, ts) <= SourceTime(width, ts) <= ts
  {
    if width == HALF_DAY {
      assert ts % 3600 <= ts % 43200;
    } else if width == DAY {
      assert ts % 3600 <= ts % 86400;
    }
  }

  /** A bucket that starts at the bound or later is taken whole. */
  lemma {:induction false} LaterBucketIsWhole(minute: MinuteTable, width: int, bound: int, b: Key)
    requires IsWidth(width) && bound <= b.ts
    ensures Taken(minute, width, bound, b) == Members(minute, width, b)
  {
    forall k | k in Members(minute, width, b) ensures SourceTime(width, k.ts) >= bound {
      BucketStartsFirst(width, k.ts);
    }
  }

  /** An hour row is written iff the statement takes a minute of it, and averages those it takes. */
  lemma {:induction false} HourRow(columns: set<string>, minute: MinuteTable, bound: int, b: Key)
    ensures b in FromMinutes(columns, minute, HOUR, bound) <==> Taken(minute, HOUR, bound, b) != {}
    ensures b in FromMinutes(columns, minute, HOUR, bound) ==>
      Averages(columns, minute, Taken(minute, HOUR, bound, b), FromMinutes(columns, minute, HOUR, bound)[b])
  {
    var keys := Since(minute.Keys, bound);
    assert Group(keys, BucketKey(HOUR), b) == Taken(minute, HOUR, bound, b);
    if Taken(minute, HOUR, bound, b) != {} {
      var k :| k in Taken(minute, HOUR, bound, b);
      assert k in keys && BucketKey(HOUR)(k) == b;
    }
    if b in Buckets(keys, HOUR) {
      var k :| k in keys && BucketKey(HOUR)(k) == b;
      assert k in Taken(minute, HOUR, bound, b);
    }
  }

  // ---------------------------------------------------------------- half-days and days

  lemma {:induction false} HoursNest(width: int, ts: int)
    requires IsCoarse(width)
    ensures Bucket(width, Bucket(HOUR, ts)) == Bucket(width, ts)
  {
    var h, r := ts / 3600, ts % 3600;
    if width == HALF_DAY {
      assert ts == 43200 * (h / 12) + 3600 * (h % 12) + r;
      assert ts / 43200 == h / 12 && (ts - r) / 43200 == h / 12;
    } else {
      assert ts == 86400 * (h / 24) + 3600 * (h % 24) + r;
      assert ts / 86400 == h / 24 && (ts - r) / 86400 == h / 24;
    }
  }

  /** The hour rows of one bucket and device that a statement takes. */
  ghost function HoursTaken(hour: RollupTable, width: int, bound: int, b: Key): set<Key>
    requires width > 0
  {
    Group(Since(hour.Keys, bound), BucketKey(width), b)
  }

  /** The hours that are taken are the hours of the minutes that are. */
  lemma {:induction false} HoursOfPart(columns: set<string>, minute: MinuteTable, hour: RollupTable, hourBound: int,
                                       width: int, bound: int, b: Key)
    requires IsCoarse(width) && hourBound <= bound && Faithful(columns, minute, HOUR, hour, hourBound)
    ensures forall k :: k in Taken(minute, width, bound, b) ==> BucketKey(HOUR)(k) in HoursTaken(hour, width, bound, b)
    ensures forall h :: h in HoursTaken(hour, width, bound, b) ==>
      && Members(minute, HOUR, h) != {}
      && Members(minute, HOUR, h) == Group(Taken(minute, width, bound, b), BucketKey(HOUR), h)
      && IsDirect(columns, minute, HOUR, h, hour[h])
  {
    var minutes, hours := Taken(minute, width, bound, b), HoursTaken(hour, width, bound, b);
    forall k | k in minutes ensures BucketKey(HOUR)(k) in hours {
      HoursNest(width, k.ts);
      assert k in Members(minute, HOUR, BucketKey(HOUR)(k));
    }
    forall h | h in hours ensures Members(minute, HOUR, h) == Group(minutes, BucketKey(HOUR), h) {
      forall k | k in Members(minute, HOUR, h) ensures k in minutes {
        HoursNest(width, k.ts);
      }
    }
  }

  /** An hour's count is the number of its values, and average times count is their sum. */
  lemma {:induction false} HourCarriesSums(columns: set<string>, minute: MinuteTable, hour: RollupTable, h: Key,
                                           metric: string)
    requires h in hour && metric in columns && IsDirect(columns, minute, HOUR, h, hour[h])
    ensures HasCount(hour, h, metric)
    ensures CountIn(hour, metric)(h) == SumOver(Members(minute, HOUR, h), PresentIn(minute, metric)) >= 0.0
    ensures ProductIn(hour, metric)(h) == SumOver(Members(minute, HOUR, h), ValueIn(minute, metric))
    ensures CountIn(hour, metric)(h) > 0.0 ==> HasProduct(hour, h, metric)
  {
    var keys := Members(minute, HOUR, h);
    var total, n := SumOver(keys, ValueIn(minute, metric)), SumOver(keys, PresentIn(minute, metric));
    NoneIsZero(minute, keys, metric);
    CellCarries(hour, h, metric, total, n);
  }

  lemma {:induction false} CellCarries(hour: RollupTable, h: Key, metric: string, total: real, n: real)
    requires h in hour && metric in hour[h] && hour[h][metric] == Average(total, n)
    requires n >= 0.0 && (n == 0.0 ==> total == 0.0)
    ensures HasCount(hour, h, metric) && CountIn(hour, metric)(h) == n && ProductIn(hour, metric)(h) == total
    ensures n > 0.0 ==> HasProduct(hour, h, metric)
  {
    if n > 0.0 {
      AverageTimesCount(total, n);
    }
  }

  lemma {:induction false} AverageTimesCount(total: real, n: real)
    requires n > 0.0
    ensures total / n * n == total
  {
  }

  lemma {:induction false} NoneIsZero(minute: MinuteTable, keys: set<Key>, metric: string)
    ensures SumOver(keys, PresentIn(minute, metric)) >= 0.0
    ensures SumOver(keys, PresentIn(minute, metric)) == 0.0
      <==> forall k :: k in keys && k in minute ==> metric !in minute[k]
    ensures SumOver(keys, PresentIn(minute, metric)) == 0.0 ==> SumOver(keys, ValueIn(minute, metric)) == 0.0
  {
    var present := PresentIn(minute, metric);
    SumNonNegative(keys, present);
    if SumOver(keys, present) == 0.0 {
      assert forall k :: k in keys ==> present(k) == 0.0;
    }
    if forall k :: k in keys && k in minute ==> metric !in minute[k] {
      SumZero(keys, present);
      SumZero(keys, ValueIn(minute, metric));
    }
  }

  /** Summed over the hours of some minutes, the hour rows give the sums over the minutes. */
  lemma {:induction false} HoursCarrySums(columns: set<string>, minute: MinuteTable, hour: RollupTable, hours: set<Key>,
                                          minutes: set<Key>, metric: string)
    requires metric in columns
    requires forall h :: h in hours ==> h in hour && IsDirect(columns, minute, HOUR, h, hour[h])
    requires forall h :: h in hours ==> Members(minute, HOUR, h) == Group(minutes, BucketKey(HOUR), h)
    requires forall k :: k in minutes ==> BucketKey(HOUR)(k) in hours
    ensures SumOver(hours, CountIn(hour, metric)) == SumOver(minutes, PresentIn(minute, metric))
    ensures SumOver(hours, ProductIn(hour, metric)) == SumOver(minutes, ValueIn(minute, metric))
  {
    forall h | h in hours
      ensures CountIn(hour, metric)(h) == GroupSum(minutes, BucketKey(HOUR), PresentIn(minute, metric))(h)
      ensures ProductIn(hour, metric)(h) == GroupSum(minutes, BucketKey(HOUR), ValueIn(minute, metric))(h)
    {
      HourCarriesSums(columns, minute, hour, h, metric);
    }
    SumSame(hours, CountIn(hour, metric), GroupSum(minutes, BucketKey(HOUR), PresentIn(minute, metric)));
    SumSame(hours, ProductIn(hour, metric), GroupSum(minutes, BucketKey(HOUR), ValueIn(minute, metric)));
    SumByGroups(minutes, hours, BucketKey(HOUR), PresentIn(minute, metric));
    SumByGroups(minutes, hours, BucketKey(HOUR), ValueIn(minute, metric));
  }

  lemma {:induction false} CountsImplyProducts(columns: set<string>, minute: MinuteTable, hour: RollupTable,
                                               hours: set<Key>, metric: string)
    requires metric in columns && hours != {}
    requires forall h :: h in hours ==> h in hour && IsDirect(columns, minute, HOUR, h, hour[h])
    ensures SomeCount(hour, hours, metric)
    ensures SumOver(hours, CountIn(hour, metric)) > 0.0 ==> SomeProduct(hour, hours, metric)
  {
    forall h | h in hours
      ensures HasCount(hour, h, metric) && (CountIn(hour, metric)(h) > 0.0 ==> HasProduct(hour, h, metric))
      ensures CountIn(hour, metric)(h) >= 0.0
    {
      HourCarriesSums(columns, minute, hour, h, metric);
    }
    var h :| h in hours;
    assert HasCount(hour, h, metric);
    if !SomeProduct(hour, hours, metric) {
      SumZero(hours, CountIn(hour, metric));
    }
  }

  /** Averaging hourly means weighted by their counts is averaging the minutes of those hours. */
  lemma {:induction false} WeightedIsDirect(columns: set<string>, minute: MinuteTable, hour: RollupTable,
                                            hourBound: int, width: int, bound: int, b: Key, metric: string)
    requires IsCoarse(width) && hourBound <= bound && metric in columns
    ensures Faithful(columns, minute, HOUR, hour, hourBound) && Taken(minute, width, bound, b) != {} ==>
      WeightedCell(hour, HoursTaken(hour, width, bound, b), metric)
        == MinuteCell(minute, Taken(minute, width, bound, b), metric)
  {
    var hours, minutes := HoursTaken(hour, width, bound, b), Taken(minute, width, bound, b);
    if Faithful(columns, minute, HOUR, hour, hourBound) && minutes != {} {
      HoursOfPart(columns, minute, hour, hourBound, width, bound, b);
      var k :| k in minutes;
      assert BucketKey(HOUR)(k) in hours;
      SumsAreWeighted(columns, minute, hour, hours, minutes, metric);
    }
  }

  lemma {:induction false} SumsAreWeighted(columns: set<string>, minute: MinuteTable, hour: RollupTable,
                                           hours: set<Key>, minutes: set<Key>, metric: string)
    requires metric in columns && hours != {}
    requires forall h :: h in hours ==> h in hour && IsDirect(columns, minute, HOUR, h, hour[h])
    requires forall h :: h in hours ==> Members(minute, HOUR, h) == Group(minutes, BucketKey(HOUR), h)
    requires forall k :: k in minutes ==> BucketKey(HOUR)(k) in hours
    ensures WeightedCell(hour, hours, metric) == MinuteCell(minute, minutes, metric)
  {
    HoursCarrySums(columns, minute, hour, hours, minutes, metric);
    CountsImplyProducts(columns, minute, hour, hours, metric);
  }

  /** A half-day or day row is written iff an hour of it is taken. */
  lemma {:induction false} CoarseRowIsWritten(columns: set<string>, minute: MinuteTable, hour: RollupTable,
                                              hourBound: int, width: int, bound: int, b: Key)
    requires IsCoarse(width) && hourBound <= bound && Faithful(columns, minute, HOUR, hour, hourBound)
    ensures b in FromRollup(columns, hour, width, bound) <==> Taken(minute, width, bound, b) != {}
  {
    var keys, minutes := Since(hour.Keys, bound), Taken(minute, width, bound, b);
    HoursOfPart(columns, minute, hour, hourBound, width, bound, b);
    if b in Buckets(keys, width) {
      var h :| h in keys && BucketKey(width)(h) == b;
      assert h in HoursTaken(hour, width, bound, b);
      var k :| k in Members(minute, HOUR, h);
      assert k in minutes;
    }
    if minutes != {} {
      var k :| k in minutes;
      assert BucketKey(HOUR)(k) in keys && BucketKey(width)(BucketKey(HOUR)(k)) == b;
    }
  }

  /** It averages the minutes of the hours that are taken. */
  lemma {:induction false} CoarseRow(columns: set<string>, minute: MinuteTable, hour: RollupTable, hourBound: int,
                                     width: int, bound: int, b: Key)
    requires IsCoarse(width) && hourBound <= bound && Faithful(columns, minute, HOUR, hour, hourBound)
    ensures b in FromRollup(columns, hour, width, bound) <==> Taken(minute, width, bound, b) != {}
    ensures b in FromRollup(columns, hour, width, bound) ==>
      Averages(columns, minute, Taken(minute, width, bound, b), FromRollup(columns, hour, width, bound)[b])
  {
    CoarseRowIsWritten(columns, minute, hour, hourBound, width, bound, b);
    if Taken(minute, width, bound, b) != {} {
      forall metric | metric in columns
        ensures WeightedCell(hour, HoursTaken(hour, width, bound, b), metric)
          == MinuteCell(minute, Taken(minute, width, bound, b), metric)
      {
        WeightedIsDirect(columns, minute, hour, hourBound, width, bound, b, metric);
      }
    }
  }

  // ---------------------------------------------------------------- when a row is right

  /** A row averaged from part of its bucket is right iff the rest of the bucket carries no value. */
  lemma {:induction false} PartIsDirectIff(columns: set<string>, minute: MinuteTable, width: int, bound: int, b: Key,
                                           row: map<string, Cell>)
    requires width > 0 && Averages(columns, minute, Taken(minute, width, bound, b), row)
    ensures IsDirect(columns, minute, width, b, row) <==> DropsNothing(columns, minute, width, bound, b)
  {
    var all, part := Members(minute, width, b), Taken(minute, width, bound, b);
    forall metric | metric in columns
      ensures MinuteCell(minute, part, metric) == MinuteCell(minute, all, metric)
        <==> forall k :: k in all - part ==> metric !in minute[k]
    {
      SameCellIff(minute, all, part, metric);
    }
    if IsDirect(columns, minute, width, b, row) {
      forall k | k in all - part ensures minute[k].Keys !! columns {
        assert forall metric :: metric in columns ==> MinuteCell(minute, part, metric) == row[metric];
      }
    }
  }

  lemma {:induction false} SameCellIff(minute: MinuteTable, all: set<Key>, part: set<Key>, metric: string)
    requires part <= all <= minute.Keys
    ensures MinuteCell(minute, part, metric) == MinuteCell(minute, all, metric)
      <==> forall k :: k in all - part ==> metric !in minute[k]
  {
    var rest := all - part;
    assert part + rest == all;
    SumUnion(part, rest, PresentIn(minute, metric));
    SumUnion(part, rest, ValueIn(minute, metric));
    NoneIsZero(minute, rest, metric);
    assert (forall k :: k in rest ==> metric !in minute[k])
      <==> (forall k :: k in rest && k in minute ==> metric !in minute[k]);
  }

  /** An hour row that is written is right iff no minute of the hour before the bound carries a value. */
  lemma {:induction false} HourRowIsDirectIff(columns: set<string>, minute: MinuteTable, bound: int, b: Key)
    requires b in FromMinutes(columns, minute, HOUR, bound)
    ensures IsDirect(columns, minute, HOUR, b, FromMinutes(columns, minute, HOUR, bound)[b])
      <==> DropsNothing(columns, minute, HOUR, bound, b)
  {
    HourRow(columns, minute, bound, b);
    PartIsDirectIff(columns, minute, HOUR, bound, b, FromMinutes(columns, minute, HOUR, bound)[b]);
  }

  /** The same for half-days and days, whose statements leave out whole hours. */
  lemma {:induction false} CoarseRowIsDirectIff(columns: set<string>, minute: MinuteTable, hour: RollupTable,
                                                hourBound: int, width: int, bound: int, b: Key)
    requires IsCoarse(width) && hourBound <= bound && Faithful(columns, minute, HOUR, hour, hourBound)
    requires b in FromRollup(columns, hour, width, bound)
    ensures IsDirect(columns, minute, width, b, FromRollup(columns, hour, width, bound)[b])
      <==> DropsNothing(columns, minute, width, bound, b)
  {
    CoarseRow(columns, minute, hour, hourBound, width, bound, b);
    PartIsDirectIff(columns, minute, width, bound, b, FromRollup(columns, hour, width, bound)[b]);
  }

  // ---------------------------------------------------------------- buckets from the bound on

  /** No row from the bound on outlives the minutes it was computed from. */
  ghost predicate Covered(minute: MinuteTable, width: int, table: RollupTable, bound: int)
    requires width > 0
  {
    forall b :: b in table && b.ts >= bound ==> Members(minute, width, b) != {}
  }

  /** A statement's rows, each written iff something of its bucket is taken, and then averaging what is. */
  ghost predicate WritesParts(columns: set<string>, minute: MinuteTable, width: int, bound: int, rows: RollupTable)
    requires width > 0
  {
    forall b: Key ::
      (b in rows <==> Taken(minute, width, bound, b) != {})
      && (b in rows ==> Averages(columns, minute, Taken(minute, width, bound, b), rows[b]))
  }

  lemma {:induction false} HoursWriteParts(columns: set<string>, minute: MinuteTable, bound: int)
    ensures WritesParts(columns, minute, HOUR, bound, FromMinutes(columns, minute, HOUR, bound))
  {
    forall b: Key
      ensures b in FromMinutes(columns, minute, HOUR, bound) <==> Taken(minute, HOUR, bound, b) != {}
      ensures b in FromMinutes(columns, minute, HOUR, bound) ==>
        Averages(columns, minute, Taken(minute, HOUR, bound, b), FromMinutes(columns, minute, HOUR, bound)[b])
    {
      HourRow(columns, minute, bound, b);
    }
  }

  lemma {:induction false} CoarseWritesParts(columns: set<string>, minute: MinuteTable, hour: RollupTable,
                                             hourBound: int, width: int, bound: int)
    requires IsCoarse(width) && hourBound <= bound && Faithful(columns, minute, HOUR, hour, hourBound)
    ensures WritesParts(columns, minute, width, bound, FromRollup(columns, hour, width, bound))
  {
    forall b: Key
      ensures b in FromRollup(columns, hour, width, bound) <==> Taken(minute, width, bound, b) != {}
      ensures b in FromRollup(columns, hour, width, bound) ==>
        Averages(columns, minute, Taken(minute, width, bound, b), FromRollup(columns, hour, width, bound)[b])
    {
      CoarseRow(columns, minute, hour, hourBound, width, bound, b);
    }
  }

  /** Upserting a statement's rows makes everything from its bound on faithful. */
  lemma {:induction false} PartsAreFaithful(columns: set<string>, minute: MinuteTable, width: int, table: RollupTable,
                                            bound: int, rows: RollupTable)
    requires IsWidth(width) && WritesParts(columns, minute, width, bound, rows) && Covered(minute, width, table, bound)
    ensures Faithful(columns, minute, width, table + rows, bound) && Covered(minute, width, table + rows, bound)
  {
    forall b: Key | b.ts >= bound ensures Taken(minute, width, bound, b) == Members(minute, width, b) {
      LaterBucketIsWhole(minute, width, bound, b);
    }
  }
}
