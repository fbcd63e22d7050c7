/**
 Whole runs of the maintenance job: collectors store minutes, and every cycle
 refreshes the three rollups and then drops old minutes. What a row ought to hold
 is read off the archive, the minutes ever stored, from which nothing is dropped.
 */
module RollupRuns {
  import opened FiniteSums
  import opened Minutes
  import opened Rollup
  import opened Wrappers

  datatype Settings = Settings(columns: set<string>, lookback: int, retain: int)

  /** The cutoff is stored by the first cycle and never changes. */
  datatype Tables = Tables(minute: MinuteTable, hour: RollupTable, halfDay: RollupTable, day: RollupTable,
                           cutoff: Option<int>)

  /** now() in each statement of one cycle. */
  datatype Clock = Clock(cutoff: int, hour: int, halfDay: int, day: int, retention: int)

  /** Collectors upsert minute values; the job runs a cycle. */
  datatype Action = Store(key: Key, values: map<string, real>) | Maintain(clock: Clock)

  const EMPTY := Tables(map[], map[], map[], map[], None)

  // ---------------------------------------------------------------- one cycle

  /** GREATEST(now() - lookback, cutoff). */
  function Bound(now: int, lookback: int, cutoff: int): int {
    if now - lookback >= cutoff then now - lookback else cutoff
  }

  ghost predicate IsEarliest(keys: set<Key>, ts: int) {
    (exists k :: k in keys && k.ts == ts) && forall k :: k in keys ==> ts <= k.ts
  }

  /** min(ts) */
  ghost function Earliest(keys: set<Key>): (ts: int)
    requires keys != {}
    ensures IsEarliest(keys, ts)
  {
    var k :| k in keys;
    if keys == {k} then k.ts
    else
      assert keys == (keys - {k}) + {k};
      var others := Earliest(keys - {k});
      if k.ts <= others then k.ts else others
  }

  /** The day after the first minute, or after now when there is none. */
  ghost function FirstCutoff(minute: MinuteTable, now: int): int {
    Bucket(DAY, if minute.Keys == {} then now else Earliest(minute.Keys)) + DAY
  }

  ghost function CutoffOf(t: Tables, now: int): int {
    if t.cutoff.Some? then t.cutoff.value else FirstCutoff(t.minute, now)
  }

  /** The three upserts in their order. */
  ghost function Refreshed(t: Tables, s: Settings, c: Clock, cutoff: int): Tables {
    var hour := t.hour + FromMinutes(s.columns, t.minute, HOUR, Bound(c.hour, s.lookback, cutoff));
    Tables(t.minute, hour,
           t.halfDay + FromRollup(s.columns, hour, HALF_DAY, Bound(c.halfDay, s.lookback, cutoff)),
           t.day + FromRollup(s.columns, hour, DAY, Bound(c.day, s.lookback, cutoff)),
           Some(cutoff))
  }

  function Retained(t: Tables, s: Settings, now: int): Tables {
    t.(minute := map k | k in t.minute && k.ts >= now - s.retain :: t.minute[k])
  }

  ghost function Cycle(t: Tables, s: Settings, c: Clock): Tables {
    Retained(Refreshed(t, s, c, CutoffOf(t, c.cutoff)), s, c.retention)
  }

  ghost predicate AllCovered(t: Tables, bound: int) {
    && Covered(t.minute, HOUR, t.hour, bound)
    && Covered(t.minute, HALF_DAY, t.halfDay, bound)
    && Covered(t.minute, DAY, t.day, bound)
  }

  ghost predicate AllFaithful(columns: set<string>, t: Tables, bound: int) {
    && Faithful(columns, t.minute, HOUR, t.hour, bound)
    && Faithful(columns, t.minute, HALF_DAY, t.halfDay, bound)
    && Faithful(columns, t.minute, DAY, t.day, bound)
  }

  predicate InOrder(c: Clock) { c.cutoff <= c.hour <= c.halfDay <= c.day <= c.retention }

  lemma {:induction false} FaithfulLater(columns: set<string>, minute: MinuteTable, width: int, table: RollupTable,
                                         bound: int, later: int)
    requires width > 0 && bound <= later && Faithful(columns, minute, width, table, bound)
    ensures Faithful(columns, minute, width, table, later)
  {
  }

  /** After the refresh, everything from the last statement's bound on is read directly from the minutes. */
  lemma {:induction false} RefreshIsFaithful(t: Tables, s: Settings, c: Clock, cutoff: int)
    requires InOrder(c) && AllCovered(t, Bound(c.hour, s.lookback, cutoff))
    ensures AllFaithful(s.columns, Refreshed(t, s, c, cutoff), Bound(c.retention, s.lookback, cutoff))
  {
    var first, hour := Bound(c.hour, s.lookback, cutoff), Refreshed(t, s, c, cutoff).hour;
    var second, third := Bound(c.halfDay, s.lookback, cutoff), Bound(c.day, s.lookback, cutoff);
    HoursAreFaithful(s.columns, t.minute, t.hour, first);
    RefreshedCoarse(s.columns, t.minute, hour, first, HALF_DAY, t.halfDay, second,
                    Bound(c.retention, s.lookback, cutoff));
    RefreshedCoarse(s.columns, t.minute, hour, first, DAY, t.day, third, Bound(c.retention, s.lookback, cutoff));
    FaithfulLater(s.columns, t.minute, HOUR, hour, first, Bound(c.retention, s.lookback, cutoff));
  }

  lemma {:induction false} RefreshedCoarse(columns: set<string>, minute: MinuteTable, hour: RollupTable, hourBound: int,
                                           width: int, table: RollupTable, bound: int, later: int)
    requires IsCoarse(width) && hourBound <= bound <= later && Faithful(columns, minute, HOUR, hour, hourBound)
    requires Covered(minute, width, table, hourBound)
    ensures Faithful(columns, minute, width, table + FromRollup(columns, hour, width, bound), later)
  {
    CoarseIsFaithful(columns, minute, hour, hourBound, width, table, bound);
  }

  lemma {:induction false} HoursAreFaithful(columns: set<string>, minute: MinuteTable, table: RollupTable, bound: int)
    requires Covered(minute, HOUR, table, bound)
    ensures Faithful(columns, minute, HOUR, table + FromMinutes(columns, minute, HOUR, bound), bound)
  {
    HoursWriteParts(columns, minute, bound);
    PartsAreFaithful(columns, minute, HOUR, table, bound, FromMinutes(columns, minute, HOUR, bound));
  }

  lemma {:induction false} CoarseIsFaithful(columns: set<string>, minute: MinuteTable, hour: RollupTable,
                                            hourBound: int, width: int, table: RollupTable, bound: int)
    requires IsCoarse(width) && hourBound <= bound && Faithful(columns, minute, HOUR, hour, hourBound)
    requires Covered(minute, width, table, bound)
    ensures Faithful(columns, minute, width, table + FromRollup(columns, hour, width, bound), bound)
  {
    CoarseWritesParts(columns, minute, hour, hourBound, width, bound);
    PartsAreFaithful(columns, minute, width, table, bound, FromRollup(columns, hour, width, bound));
  }

  /** Refreshing again at the same times changes nothing. */
  lemma {:induction false} RefreshIsIdempotent(t: Tables, s: Settings, c: Clock, cutoff: int)
    ensures Refreshed(Refreshed(t, s, c, cutoff), s, c, cutoff) == Refreshed(t, s, c, cutoff)
  {
    var hour := FromMinutes(s.columns, t.minute, HOUR, Bound(c.hour, s.lookback, cutoff));
    MergeAgain(t.hour, hour);
    MergeAgain(t.halfDay, FromRollup(s.columns, t.hour + hour, HALF_DAY, Bound(c.halfDay, s.lookback, cutoff)));
    MergeAgain(t.day, FromRollup(s.columns, t.hour + hour, DAY, Bound(c.day, s.lookback, cutoff)));
  }

  lemma {:induction false} MergeAgain(table: RollupTable, rows: RollupTable)
    ensures table + rows + rows == table + rows
  {
  }

  /** Two minute tables that agree from some time on. */
  ghost predicate Agree(a: MinuteTable, b: MinuteTable, from: int) {
    forall k: Key :: k.ts >= from ==> (k in a <==> k in b) && (k in a ==> a[k] == b[k])
  }

  /** Tables that agree on a bucket's minutes agree on what the bucket holds. */
  lemma {:induction false} AgreementSparesBucket(a: MinuteTable, b: MinuteTable, from: int, width: int, bucket: Key)
    requires width > 0 && Agree(a, b, from) && from <= bucket.ts
    ensures Members(a, width, bucket) == Members(b, width, bucket)
    ensures forall k :: k in Members(a, width, bucket) ==> k.ts >= from
  {
    assert forall k :: BucketKey(width)(k).ts <= k.ts;
  }

  lemma {:induction false} AgreementSparesSums(a: MinuteTable, b: MinuteTable, from: int, keys: set<Key>,
                                               metric: string)
    requires Agree(a, b, from) && forall k :: k in keys ==> k.ts >= from
    ensures MinuteCell(a, keys, metric) == MinuteCell(b, keys, metric)
  {
    SumSame(keys, PresentIn(a, metric), PresentIn(b, metric));
    SumSame(keys, ValueIn(a, metric), ValueIn(b, metric));
  }

  lemma {:induction false} AgreementKeepsFaith(columns: set<string>, a: MinuteTable, b: MinuteTable, width: int,
                                               table: RollupTable, from: int)
    requires width > 0 && Agree(a, b, from) && Faithful(columns, a, width, table, from)
    ensures Faithful(columns, b, width, table, from)
  {
    forall bucket: Key | bucket.ts >= from
      ensures bucket in table <==> Members(b, width, bucket) != {}
      ensures bucket in table ==> IsDirect(columns, b, width, bucket, table[bucket])
    {
      AgreementSparesBucket(a, b, from, width, bucket);
      if bucket in table {
        AgreementKeepsRow(columns, a, b, from, Members(a, width, bucket), table[bucket]);
      }
    }
  }

  lemma {:induction false} AgreementKeepsCover(a: MinuteTable, b: MinuteTable, width: int, table: RollupTable,
                                               from: int)
    requires width > 0 && Agree(a, b, from) && Covered(a, width, table, from)
    ensures Covered(b, width, table, from)
  {
    forall bucket | bucket in table && bucket.ts >= from ensures Members(b, width, bucket) != {} {
      AgreementSparesBucket(a, b, from, width, bucket);
    }
  }

  /** Dropping old minutes keeps faithful every bucket that starts inside the retention. */
  lemma {:induction false} RetentionKeepsFaith(s: Settings, t: Tables, now: int, bound: int)
    requires bound >= now - s.retain && AllFaithful(s.columns, t, bound)
    ensures AllFaithful(s.columns, Retained(t, s, now), bound)
  {
    var kept := Retained(t, s, now).minute;
    AgreementKeepsFaith(s.columns, t.minute, kept, HOUR, t.hour, bound);
    AgreementKeepsFaith(s.columns, t.minute, kept, HALF_DAY, t.halfDay, bound);
    AgreementKeepsFaith(s.columns, t.minute, kept, DAY, t.day, bound);
  }

  // ---------------------------------------------------------------- whole runs

  ghost function Act(t: Tables, s: Settings, a: Action): Tables {
    match a
    case Store(key, values) => t.(minute := Merged(t.minute, key, values))
    case Maintain(c) => Cycle(t, s, c)
  }

  ghost function Run(s: Settings, actions: seq<Action>): Tables {
    if actions == [] then EMPTY else Act(Run(s, actions[..|actions| - 1]), s, actions[|actions| - 1])
  }

  /** The minutes ever stored. */
  function Archive(actions: seq<Action>): MinuteTable {
    if actions == [] then map[]
    else
      var before := Archive(actions[..|actions| - 1]);
      match actions[|actions| - 1]
      case Store(key, values) => Merged(before, key, values)
      case Maintain(_) => before
  }

  /** The cycles follow each other in time, each statement after the one before. */
  ghost predicate TimeAdvances(actions: seq<Action>) {
    && (forall i :: 0 <= i < |actions| && actions[i].Maintain? ==> InOrder(actions[i].clock))
    && (forall i, j :: 0 <= i < j < |actions| && actions[i].Maintain? && actions[j].Maintain? ==>
          actions[i].clock.retention <= actions[j].clock.cutoff)
  }

  /** What a collector's upsert lets through: an address, a whole minute, known columns, and some value. */
  predicate Storable(s: Settings, a: Action) {
    a.Store? ==> a.key.mac != "" && a.key.ts % MINUTE == 0 && a.values != map[] && a.values.Keys <= s.columns
  }

  ghost predicate IsRun(s: Settings, actions: seq<Action>) {
    TimeAdvances(actions) && forall i :: 0 <= i < |actions| ==> Storable(s, actions[i])
  }

  predicate EndsInCycle(actions: seq<Action>) { actions != [] && actions[|actions| - 1].Maintain? }

  /** The cutoff of the cycle that ends a run. */
  ghost function CutoffAfter(s: Settings, actions: seq<Action>): int
    requires EndsInCycle(actions)
  {
    CutoffOf(Run(s, actions[..|actions| - 1]), actions[|actions| - 1].clock.cutoff)
  }

  /** Retention has reached no further than `from`. */
  ghost predicate KeptFrom(s: Settings, actions: seq<Action>, from: int) {
    forall i :: 0 <= i < |actions| && actions[i].Maintain? ==> actions[i].clock.retention - s.retain <= from
  }

  /** Before a cycle, retention has not reached the cycle's own bounds. */
  lemma {:induction false} BoundsAreKept(s: Settings, actions: seq<Action>)
    requires TimeAdvances(actions) && EndsInCycle(actions) && s.lookback <= s.retain
    ensures KeptFrom(s, actions[..|actions| - 1],
                     Bound(actions[|actions| - 1].clock.hour, s.lookback, CutoffAfter(s, actions)))
  {
  }

  /** Where retention has not reached, the minutes are those ever stored. */
  lemma {:induction false} KeptIsArchived(s: Settings, actions: seq<Action>, from: int)
    requires KeptFrom(s, actions, from)
    ensures Agree(Run(s, actions).minute, Archive(actions), from)
  {
    if actions == [] {
    } else {
      KeptIsArchived(s, actions[..|actions| - 1], from);
    }
  }

  /** Where retention has not reached, no row outlives its minutes. */
  lemma {:induction false} RowsStayCovered(s: Settings, actions: seq<Action>, from: int)
    requires KeptFrom(s, actions, from)
    ensures AllCovered(Run(s, actions), from)
  {
    if actions == [] {
    } else {
      var before, last := actions[..|actions| - 1], actions[|actions| - 1];
      var t := Run(s, before);
      RowsStayCovered(s, before, from);
      match last
      case Store(key, values) =>
        StoringKeepsCover(t, s, last, from);
      case Maintain(c) =>
        var refreshed := Refreshed(t, s, c, CutoffOf(t, c.cutoff));
        RefreshKeepsCover(t, s, c, CutoffOf(t, c.cutoff), from);
        RetentionKeepsCover(s, refreshed, c.retention, from);
    }
  }

  lemma {:induction false} StoringKeepsCover(t: Tables, s: Settings, a: Action, from: int)
    requires a.Store? && AllCovered(t, from)
    ensures AllCovered(Act(t, s, a), from)
  {
    var minute := Act(t, s, a).minute;
    assert forall width, b | width in {HOUR, HALF_DAY, DAY} :: Members(t.minute, width, b) <= Members(minute, width, b);
  }

  /** A refresh only writes rows that have minutes, or hours that have. */
  lemma {:induction false} RefreshKeepsCover(t: Tables, s: Settings, c: Clock, cutoff: int, from: int)
    requires AllCovered(t, from)
    ensures AllCovered(Refreshed(t, s, c, cutoff), from)
  {
    var rows := FromMinutes(s.columns, t.minute, HOUR, Bound(c.hour, s.lookback, cutoff));
    forall b | b in rows ensures Members(t.minute, HOUR, b) != {} {
      HourRow(s.columns, t.minute, Bound(c.hour, s.lookback, cutoff), b);
    }
    CoarseCover(t.minute, t.hour + rows, t.halfDay, s.columns, HALF_DAY, Bound(c.halfDay, s.lookback, cutoff), from);
    CoarseCover(t.minute, t.hour + rows, t.day, s.columns, DAY, Bound(c.day, s.lookback, cutoff), from);
  }

  lemma {:induction false} CoarseCover(minute: MinuteTable, hour: RollupTable, table: RollupTable, columns: set<string>,
                                       width: int, bound: int, from: int)
    requires IsCoarse(width) && Covered(minute, HOUR, hour, from) && Covered(minute, width, table, from)
    ensures Covered(minute, width, table + FromRollup(columns, hour, width, bound), from)
  {
    forall b | b in FromRollup(columns, hour, width, bound) && b.ts >= from ensures Members(minute, width, b) != {} {
      var h :| h in hour && BucketKey(width)(h) == b;
      var k :| k in Members(minute, HOUR, h);
      HoursNest(width, k.ts);
      assert k in Members(minute, width, b);
    }
  }

  lemma {:induction false} RetentionKeepsCover(s: Settings, t: Tables, now: int, from: int)
    requires from >= now - s.retain && AllCovered(t, from)
    ensures AllCovered(Retained(t, s, now), from)
  {
    var kept := Retained(t, s, now).minute;
    AgreementKeepsCover(t.minute, kept, HOUR, t.hour, from);
    AgreementKeepsCover(t.minute, kept, HALF_DAY, t.halfDay, from);
    AgreementKeepsCover(t.minute, kept, DAY, t.day, from);
  }

  /** From the bound of its last cycle on, a run's rollups read like the minutes they cover. */
  ghost predicate EndsFaithful(s: Settings, actions: seq<Action>)
    requires EndsInCycle(actions)
  {
    AllFaithful(s.columns, Run(s, actions),
                Bound(actions[|actions| - 1].clock.retention, s.lookback, CutoffAfter(s, actions)))
  }

  /** After every cycle of every run, what starts at or after the bound is read directly from the minutes. */
  lemma {:induction false} CycleIsFaithful(s: Settings, actions: seq<Action>)
    requires s.lookback <= s.retain && TimeAdvances(actions) && EndsInCycle(actions)
    ensures EndsFaithful(s, actions)
  {
    var before, c, cutoff := actions[..|actions| - 1], actions[|actions| - 1].clock, CutoffAfter(s, actions);
    var t := Run(s, before);
    BoundsAreKept(s, actions);
    RowsStayCovered(s, before, Bound(c.hour, s.lookback, cutoff));
    RefreshIsFaithful(t, s, c, cutoff);
    RetentionKeepsFaith(s, Refreshed(t, s, c, cutoff), c.retention, Bound(c.retention, s.lookback, cutoff));
  }

  // ---------------------------------------------------------------- every row, old ones included

  function TableOf(t: Tables, width: int): RollupTable {
    if width == HOUR then t.hour else if width == HALF_DAY then t.halfDay else t.day
  }

  function ClockOf(c: Clock, width: int): int {
    if width == HOUR then c.hour else if width == HALF_DAY then c.halfDay else c.day
  }

  /** The lower bound of the last cycle's statement for one width. */
  ghost function LastBound(s: Settings, actions: seq<Action>, width: int): int
    requires EndsInCycle(actions)
  {
    Bound(ClockOf(actions[|actions| - 1].clock, width), s.lookback, CutoffAfter(s, actions))
  }

  /** The rows that the last cycle upserts into one table. */
  ghost function LastRows(s: Settings, actions: seq<Action>, width: int): RollupTable
    requires EndsInCycle(actions)
  {
    var t := Run(s, actions[..|actions| - 1]);
    var c := actions[|actions| - 1].clock;
    if width == HOUR then FromMinutes(s.columns, t.minute, HOUR, LastBound(s, actions, HOUR))
    else
      FromRollup(s.columns, Refreshed(t, s, c, CutoffAfter(s, actions)).hour,
                 if width == HALF_DAY then HALF_DAY else DAY, LastBound(s, actions, width))
  }

  lemma {:induction false} LastRowsAreMerged(s: Settings, actions: seq<Action>, width: int)
    requires IsWidth(width) && EndsInCycle(actions)
    ensures TableOf(Run(s, actions), width)
      == TableOf(Run(s, actions[..|actions| - 1]), width) + LastRows(s, actions, width)
  {
  }

  /** In every run a cycle writes parts of buckets, as they are in the archive. */
  lemma {:induction false} LastRowsAreParts(s: Settings, actions: seq<Action>, width: int)
    requires IsWidth(width) && s.lookback <= s.retain && TimeAdvances(actions) && EndsInCycle(actions)
    ensures WritesParts(s.columns, Archive(actions), width, LastBound(s, actions, width), LastRows(s, actions, width))
  {
    var before, c, cutoff := actions[..|actions| - 1], actions[|actions| - 1].clock, CutoffAfter(s, actions);
    var t, first := Run(s, before), Bound(c.hour, s.lookback, cutoff);
    BoundsAreKept(s, actions);
    KeptIsArchived(s, before, first);
    RowsStayCovered(s, before, first);
    HoursAreFaithful(s.columns, t.minute, t.hour, first);
    if width == HOUR {
      HoursWriteParts(s.columns, t.minute, first);
    } else {
      CoarseWritesParts(s.columns, t.minute, Refreshed(t, s, c, cutoff).hour, first, width,
                        LastBound(s, actions, width));
    }
    AgreementKeepsParts(s.columns, t.minute, Archive(actions), first, width, LastBound(s, actions, width),
                        LastRows(s, actions, width));
  }

  lemma {:induction false} AgreementKeepsParts(columns: set<string>, a: MinuteTable, b: MinuteTable, from: int,
                                               width: int, bound: int, rows: RollupTable)
    requires IsWidth(width) && Agree(a, b, from) && from <= bound && WritesParts(columns, a, width, bound, rows)
    ensures WritesParts(columns, b, width, bound, rows)
  {
    forall bucket: Key
      ensures bucket in rows <==> Taken(b, width, bound, bucket) != {}
      ensures bucket in rows ==> Averages(columns, b, Taken(b, width, bound, bucket), rows[bucket])
    {
      AgreementSparesPart(a, b, from, width, bound, bucket);
      if bucket in rows {
        AgreementKeepsRow(columns, a, b, from, Taken(a, width, bound, bucket), rows[bucket]);
      }
    }
  }

  lemma {:induction false} AgreementKeepsRow(columns: set<string>, a: MinuteTable, b: MinuteTable, from: int,
                                             part: set<Key>, row: map<string, Cell>)
    requires Agree(a, b, from) && forall k :: k in part ==> k.ts >= from
    ensures Averages(columns, a, part, row) <==> Averages(columns, b, part, row)
  {
    forall metric ensures MinuteCell(a, part, metric) == MinuteCell(b, part, metric) {
      AgreementSparesSums(a, b, from, part, metric);
    }
  }

  lemma {:induction false} AgreementSparesPart(a: MinuteTable, b: MinuteTable, from: int, width: int, bound: int,
                                               bucket: Key)
    requires IsWidth(width) && Agree(a, b, from) && from <= bound
    ensures Taken(a, width, bound, bucket) == Taken(b, width, bound, bucket)
    ensures forall k :: k in Taken(a, width, bound, bucket) ==> k.ts >= from
  {
    forall k: Key ensures SourceTime(width, k.ts) <= k.ts {
      BucketStartsFirst(width, k.ts);
    }
  }

  ghost predicate RightIff(s: Settings, archive: MinuteTable, width: int, b: Key, row: map<string, Cell>,
                           condition: bool)
    requires width > 0
  {
    IsDirect(s.columns, archive, width, b, row) <==> condition
  }

  /**
   What a cycle does to any row, however old: it leaves the row alone iff its statement takes
   nothing of the bucket; otherwise the row it writes is right iff what it leaves out has no value.
   */
  lemma {:induction false} RowAfterCycle(s: Settings, actions: seq<Action>, width: int, b: Key)
    requires IsWidth(width) && s.lookback <= s.retain && TimeAdvances(actions) && EndsInCycle(actions)
    ensures var was, now := TableOf(Run(s, actions[..|actions| - 1]), width), TableOf(Run(s, actions), width);
      var archive, bound := Archive(actions), LastBound(s, actions, width);
      if Taken(archive, width, bound, b) == {} then (b in now <==> b in was) && (b in now ==> now[b] == was[b])
      else b in now && RightIff(s, archive, width, b, now[b], DropsNothing(s.columns, archive, width, bound, b))
  {
    var rows := LastRows(s, actions, width);
    LastRowsAreMerged(s, actions, width);
    LastRowsAreParts(s, actions, width);
    if b in rows {
      PartIsDirectIff(s.columns, Archive(actions), width, LastBound(s, actions, width), b, rows[b]);
    }
  }

  /**
   A row that was right stays right iff the bound has not passed its start, or nothing is
   written, or nothing dropped.
   */
  lemma {:induction false} RowStaysRightIff(s: Settings, actions: seq<Action>, width: int, b: Key)
    requires IsWidth(width) && s.lookback <= s.retain && TimeAdvances(actions) && EndsInCycle(actions)
    requires b in TableOf(Run(s, actions[..|actions| - 1]), width)
    requires IsDirect(s.columns, Archive(actions), width, b, TableOf(Run(s, actions[..|actions| - 1]), width)[b])
    ensures b in TableOf(Run(s, actions), width)
    ensures var archive, bound := Archive(actions), LastBound(s, actions, width);
      IsDirect(s.columns, archive, width, b, TableOf(Run(s, actions), width)[b])
      <==> bound <= b.ts || Taken(archive, width, bound, b) == {} || DropsNothing(s.columns, archive, width, bound, b)
  {
    RowAfterCycle(s, actions, width, b);
    if LastBound(s, actions, width) <= b.ts {
      LaterBucketIsWhole(Archive(actions), width, LastBound(s, actions, width), b);
    }
  }

  // ---------------------------------------------------------------- when the settings keep rows right

  /** After every cycle of every run, the rollups read like the minutes they cover, from the bound on. */
  ghost predicate AlwaysFaithful(s: Settings) {
    forall actions: seq<Action> :: IsRun(s, actions) && EndsInCycle(actions) ==> EndsFaithful(s, actions)
  }

  /** A cycle whose statements all run at once. */
  function At(now: int): Action { Maintain(Clock(now, now, now, now, now)) }

  /** A run that begins on an empty database at time 0, and so has the next day as its cutoff. */
  lemma {:induction false} OpeningRun(s: Settings)
    ensures IsRun(s, [At(0)]) && CyclesEnd([At(0)], 0)
    ensures Run(s, [At(0)]) == EMPTY.(cutoff := Some(DAY)) && Archive([At(0)]) == map[]
  {
    OpeningFrom(s, [], At(0));
    var none: seq<Action> := [];
    assert none + [At(0)] == [At(0)];
  }

  lemma {:induction false} OpeningFrom(s: Settings, none: seq<Action>, a: Action)
    requires none == [] && a.Maintain? && a.clock.cutoff == 0
    ensures Run(s, none + [a]) == EMPTY.(cutoff := Some(DAY)) && Archive(none + [a]) == map[]
  {
    FirstCycle(s, a.clock);
    NextAction(s, none, a);
  }

  lemma {:induction false} FirstCycle(s: Settings, c: Clock)
    requires c.cutoff == 0
    ensures Cycle(EMPTY, s, c) == EMPTY.(cutoff := Some(DAY))
  {
    FirstCutoffOfNothing();
    NothingFromNothing(s, c, DAY);
  }

  lemma {:induction false} FirstCutoffOfNothing()
    ensures CutoffOf(EMPTY, 0) == DAY
  {
    assert EMPTY.minute.Keys == {};
  }

  lemma {:induction false} NothingFromNothing(s: Settings, c: Clock, cutoff: int)
    ensures Retained(Refreshed(EMPTY, s, c, cutoff), s, c.retention) == EMPTY.(cutoff := Some(cutoff))
  {
    var t := Refreshed(EMPTY, s, c, cutoff);
    assert FromMinutes(s.columns, map[], HOUR, Bound(c.hour, s.lookback, cutoff)) == map[];
    assert FromRollup(s.columns, map[], HALF_DAY, Bound(c.halfDay, s.lookback, cutoff)) == map[];
    assert FromRollup(s.columns, map[], DAY, Bound(c.day, s.lookback, cutoff)) == map[];
  }

  lemma {:induction false} NextAction(s: Settings, actions: seq<Action>, a: Action)
    ensures Run(s, actions + [a]) == Act(Run(s, actions), s, a)
    ensures Archive(actions + [a]) == if a.Store? then Merged(Archive(actions), a.key, a.values) else Archive(actions)
  {
    assert (actions + [a])[..|actions|] == actions;
  }

  lemma {:induction false} LastCycle(s: Settings, actions: seq<Action>, now: int, width: int)
    requires Run(s, actions).cutoff.Some?
    ensures EndsInCycle(actions + [At(now)]) && (actions + [At(now)])[..|actions|] == actions
    ensures CutoffAfter(s, actions + [At(now)]) == Run(s, actions).cutoff.value
    ensures LastBound(s, actions + [At(now)], width) == Bound(now, s.lookback, Run(s, actions).cutoff.value)
    ensures Run(s, actions + [At(now)]).cutoff == Run(s, actions).cutoff
  {
    assert (actions + [At(now)])[..|actions|] == actions;
  }

  ghost predicate CyclesEnd(actions: seq<Action>, now: int) {
    forall i :: 0 <= i < |actions| && actions[i].Maintain? ==> actions[i].clock.retention <= now
  }

  lemma {:induction false} CycleExtendsRun(s: Settings, actions: seq<Action>, now: int)
    requires IsRun(s, actions)
    requires CyclesEnd(actions, now)
    ensures IsRun(s, actions + [At(now)]) && CyclesEnd(actions + [At(now)], now)
  {
  }

  /** An opening cycle and one stored minute. */
  function OneStore(k: Key, values: map<string, real>): seq<Action> { [At(0)] + [Store(k, values)] }

  lemma {:induction false} OneStoreRun(s: Settings, k: Key, values: map<string, real>)
    requires Storable(s, Store(k, values))
    ensures IsRun(s, OneStore(k, values)) && CyclesEnd(OneStore(k, values), 0)
    ensures Run(s, OneStore(k, values)) == EMPTY.(minute := map[k := values], cutoff := Some(DAY))
    ensures Archive(OneStore(k, values)) == map[k := values]
  {
    OpeningRun(s);
    MergedIntoNothing(k, values);
    StoreExtendsRun(s, [At(0)], k, values, EMPTY.(cutoff := Some(DAY)), map[]);
  }

  lemma {:induction false} StoreExtendsRun(s: Settings, actions: seq<Action>, k: Key, values: map<string, real>,
                                           t: Tables, archive: MinuteTable)
    requires IsRun(s, actions) && CyclesEnd(actions, 0) && Run(s, actions) == t && Archive(actions) == archive
    requires Storable(s, Store(k, values))
    ensures IsRun(s, actions + [Store(k, values)]) && CyclesEnd(actions + [Store(k, values)], 0)
    ensures Run(s, actions + [Store(k, values)]) == t.(minute := Merged(t.minute, k, values))
    ensures Archive(actions + [Store(k, values)]) == Merged(archive, k, values)
  {
    NextAction(s, actions, Store(k, values));
  }

  lemma {:induction false} MergedIntoNothing(k: Key, values: map<string, real>)
    ensures Merged(map[], k, values) == map[k := values]
  {
    assert map[] + values == values;
  }

  /** If minutes are dropped before they leave the lookback, an hour outlives the minutes it counts. */
  lemma {:induction false} ShortRetentionBreaksFaith(s: Settings, mac: string, metric: string)
    returns (actions: seq<Action>)
    requires s.retain < s.lookback && mac != "" && metric in s.columns
    ensures IsRun(s, actions) && EndsInCycle(actions) && !EndsFaithful(s, actions)
  {
    var days := if s.lookback < 0 then 1 - s.lookback else 1;
    var k, values := Key(DAY * days, mac), map[metric := 0.0];
    WholeDays(days);
    assert metric in values;
    OneStoreRun(s, k, values);
    actions := OneStore(k, values) + [At(k.ts + s.lookback)];
    OutlivedMinute(s, OneStore(k, values), k, k.ts + s.lookback, actions);
  }

  lemma {:induction false} WholeDays(days: int)
    ensures DAY * days % MINUTE == 0 && DAY * days % HOUR == 0
  {
  }

  lemma {:induction false} OutlivedMinute(s: Settings, stored: seq<Action>, k: Key, now: int, actions: seq<Action>)
    requires s.retain < s.lookback && now == k.ts + s.lookback && IsRun(s, stored) && CyclesEnd(stored, now)
    requires Run(s, stored).minute.Keys == {k} && k.ts % HOUR == 0
    requires Run(s, stored).cutoff.Some? && Run(s, stored).cutoff.value <= k.ts
    requires actions == stored + [At(now)]
    ensures IsRun(s, actions) && EndsInCycle(actions) && !EndsFaithful(s, actions)
  {
    CycleExtendsRun(s, stored, now);
    LastCycle(s, stored, now, HOUR);
    LoneMinuteIsOutlived(s, stored, At(now), k, Run(s, stored), Run(s, actions));
  }

  lemma {:induction false} LoneMinuteIsOutlived(s: Settings, stored: seq<Action>, a: Action, k: Key, t: Tables,
                                                after: Tables)
    requires s.retain < s.lookback && a.Maintain? && a.clock.hour == a.clock.retention == k.ts + s.lookback
    requires t == Run(s, stored) && after == Run(s, stored + [a])
    requires t.cutoff.Some? && t.cutoff.value <= k.ts && k.ts % HOUR == 0 && t.minute.Keys == {k}
    ensures !Faithful(s.columns, after.minute, HOUR, after.hour, k.ts)
  {
    NextAction(s, stored, a);
    FullHourIsWritten(s.columns, t.minute, k);
    assert k !in after.minute && k in after.hour;
    assert Members(after.minute, HOUR, k) == {};
  }

  lemma {:induction false} FullHourIsWritten(columns: set<string>, minute: MinuteTable, k: Key)
    requires k in minute && k.ts % HOUR == 0
    ensures k in FromMinutes(columns, minute, HOUR, k.ts)
  {
    assert k in Taken(minute, HOUR, k.ts, k);
    HourRow(columns, minute, k.ts, k);
  }

  /**
   From the bound on, rows are right on every run exactly when minutes are kept at least as
   long as they are refreshed.
   */
  lemma {:induction false} FaithfulIffRetained(s: Settings)
    requires s.columns != {}
    ensures AlwaysFaithful(s) <==> s.lookback <= s.retain
  {
    if s.lookback <= s.retain {
      forall actions: seq<Action> | IsRun(s, actions) && EndsInCycle(actions) ensures EndsFaithful(s, actions) {
        CycleIsFaithful(s, actions);
      }
    } else {
      var metric :| metric in s.columns;
      var actions := ShortRetentionBreaksFaith(s, "02:00:00:00:00:01", metric);
    }
  }

  /** The least distance between two minutes that one bound can part. */
  function Step(width: int): int { if width == HOUR then MINUTE else HOUR }

  /** An opening cycle, and two minutes of one bucket. */
  lemma {:induction false} TwoStoresRun(s: Settings, b: Key, second: Key, metric: string) returns (stored: seq<Action>)
    requires b.mac != "" && b.ts % MINUTE == 0 && Storable(s, Store(second, map[metric := 10.0]))
    requires metric in s.columns && b != second
    ensures IsRun(s, stored) && CyclesEnd(stored, 0) && Run(s, stored).cutoff == Some(DAY)
    ensures b in Archive(stored) && second in Archive(stored) && metric in Archive(stored)[b]
  {
    var values := map[metric := 0.0];
    assert metric in values;
    OneStoreRun(s, b, values);
    var one := OneStore(b, values);
    stored := one + [Store(second, map[metric := 10.0])];
    StoreExtendsRun(s, one, second, map[metric := 10.0], Run(s, one), map[b := values]);
  }

  /** The cycle that ends a run makes a row wrong that was right before it. */
  ghost predicate GoesWrong(s: Settings, before: seq<Action>, run: seq<Action>, width: int, b: Key)
    requires width > 0
  {
    && IsRun(s, run) && EndsInCycle(run) && run[..|run| - 1] == before
    && b in TableOf(Run(s, before), width)
    && IsDirect(s.columns, Archive(run), width, b, TableOf(Run(s, before), width)[b])
    && b in TableOf(Run(s, run), width)
    && !IsDirect(s.columns, Archive(run), width, b, TableOf(Run(s, run), width)[b])
  }

  /**
   Under every setting, a row of each width that was right is overwritten from part of its bucket:
   two minutes, a cycle that averages both, and one whose bound has passed the first.
   */
  lemma {:induction false} SweptRowGoesWrong(s: Settings, width: int, mac: string, metric: string)
    returns (before: seq<Action>, run: seq<Action>)
    requires IsWidth(width) && Step(width) <= s.lookback <= s.retain && mac != "" && metric in s.columns
    ensures GoesWrong(s, before, run, width, Key(DAY, mac))
  {
    var b, second := Key(DAY, mac), Key(DAY + Step(width), mac);
    assert metric in map[metric := 10.0];
    var stored := TwoStoresRun(s, b, second, metric);
    before := stored + [At(second.ts)];
    run := before + [At(second.ts + s.lookback)];
    SweptFrom(s, stored, width, b, second, metric, before, run);
  }

  lemma {:induction false} SweptFrom(s: Settings, stored: seq<Action>, width: int, b: Key, second: Key, metric: string,
                                     before: seq<Action>, run: seq<Action>)
    requires IsWidth(width) && Step(width) <= s.lookback <= s.retain && metric in s.columns
    requires IsRun(s, stored) && CyclesEnd(stored, 0) && Run(s, stored).cutoff == Some(DAY)
    requires b.ts == DAY && second == Key(DAY + Step(width), b.mac)
    requires b in Archive(stored) && second in Archive(stored) && metric in Archive(stored)[b]
    requires before == stored + [At(second.ts)] && run == before + [At(second.ts + s.lookback)]
    ensures GoesWrong(s, before, run, width, b)
  {
    BothAreAveraged(s, stored, width, b, second, metric, before);
    FirstIsDropped(s, before, width, b, second, metric, run);
  }

  lemma {:induction false} BothAreAveraged(s: Settings, stored: seq<Action>, width: int, b: Key, second: Key,
                                           metric: string, before: seq<Action>)
    requires IsWidth(width) && Step(width) <= s.lookback <= s.retain && metric in s.columns
    requires IsRun(s, stored) && CyclesEnd(stored, 0) && Run(s, stored).cutoff == Some(DAY)
    requires b.ts == DAY && second == Key(DAY + Step(width), b.mac)
    requires b in Archive(stored) && second in Archive(stored) && metric in Archive(stored)[b]
    requires before == stored + [At(second.ts)]
    ensures IsRun(s, before) && CyclesEnd(before, second.ts) && Run(s, before).cutoff == Some(DAY)
    ensures Archive(before) == Archive(stored) && b in TableOf(Run(s, before), width)
    ensures IsDirect(s.columns, Archive(before), width, b, TableOf(Run(s, before), width)[b])
  {
    CycleExtendsRun(s, stored, second.ts);
    SweptPart(Archive(stored), s.columns, width, b, second, metric);
    RowAfterNext(s, stored, second.ts, width, b, DAY, Archive(stored), before);
  }

  lemma {:induction false} FirstIsDropped(s: Settings, before: seq<Action>, width: int, b: Key, second: Key,
                                          metric: string, run: seq<Action>)
    requires IsWidth(width) && 0 <= s.lookback <= s.retain && metric in s.columns
    requires IsRun(s, before) && CyclesEnd(before, second.ts) && Run(s, before).cutoff == Some(DAY)
    requires b.ts == DAY && second == Key(DAY + Step(width), b.mac)
    requires b in Archive(before) && second in Archive(before) && metric in Archive(before)[b]
    requires run == before + [At(second.ts + s.lookback)]
    ensures IsRun(s, run) && EndsInCycle(run) && run[..|run| - 1] == before && Archive(run) == Archive(before)
    ensures b in TableOf(Run(s, run), width)
    ensures !IsDirect(s.columns, Archive(run), width, b, TableOf(Run(s, run), width)[b])
  {
    CycleExtendsRun(s, before, second.ts + s.lookback);
    SweptPart(Archive(before), s.columns, width, b, second, metric);
    RowAfterNext(s, before, second.ts + s.lookback, width, b, second.ts, Archive(before), run);
  }

  /** `RowAfterCycle` for a run that is extended by one more cycle. */
  lemma {:induction false} RowAfterNext(s: Settings, actions: seq<Action>, now: int, width: int, b: Key, bound: int,
                                        archive: MinuteTable, next: seq<Action>)
    requires IsWidth(width) && s.lookback <= s.retain && next == actions + [At(now)] && TimeAdvances(next)
    requires Run(s, actions).cutoff.Some? && bound == Bound(now, s.lookback, Run(s, actions).cutoff.value)
    requires archive == Archive(actions) && Taken(archive, width, bound, b) != {}
    ensures EndsInCycle(next) && next[..|next| - 1] == actions
    ensures Run(s, next).cutoff == Run(s, actions).cutoff && Archive(next) == archive
    ensures b in TableOf(Run(s, next), width)
    ensures IsDirect(s.columns, archive, width, b, TableOf(Run(s, next), width)[b])
      <==> DropsNothing(s.columns, archive, width, bound, b)
  {
    NextAction(s, actions, At(now));
    LastCycle(s, actions, now, width);
    RowAfterCycle(s, next, width, b);
  }

  lemma {:induction false} StepStarts(width: int)
    requires IsWidth(width)
    ensures Bucket(width, DAY) == DAY == Bucket(width, DAY + Step(width))
    ensures SourceTime(width, DAY) == DAY && SourceTime(width, DAY + Step(width)) == DAY + Step(width)
  {
    Remainder(width, 86400 / width, 0, DAY);
    Remainder(width, 86400 / width, Step(width), DAY + Step(width));
    Remainder(HOUR, 24, 0, DAY);
    Remainder(HOUR, 25, 0, DAY + HOUR);
  }

  lemma {:induction false} Remainder(width: int, quotient: int, r: int, ts: int)
    requires 0 <= r < width && ts == width * quotient + r
    ensures Bucket(width, ts) == ts - r
  {
    assert width * (quotient - ts / width) == ts % width - r;
    MultipleGrows(width, quotient - ts / width);
  }

  lemma {:induction false} MultipleGrows(width: int, d: int)
    requires width > 0
    ensures d >= 1 ==> width * d >= width
    ensures d <= -1 ==> width * d <= -width
  {
  }

  lemma {:induction false} SweptMembers(archive: MinuteTable, width: int, b: Key, second: Key)
    requires IsWidth(width) && b.ts == DAY && second == Key(DAY + Step(width), b.mac)
    requires b in archive && second in archive
    ensures b in Members(archive, width, b) && second in Members(archive, width, b)
    ensures SourceTime(width, b.ts) == b.ts && SourceTime(width, second.ts) == second.ts
  {
    StepStarts(width);
    assert BucketKey(width)(b) == b == BucketKey(width)(second);
  }

  /** A bound at the bucket's start takes all of it; one past the first minute takes the second alone. */
  lemma {:induction false} SweptPart(archive: MinuteTable, columns: set<string>, width: int, b: Key, second: Key,
                                     metric: string)
    requires IsWidth(width) && b.ts == DAY && second == Key(DAY + Step(width), b.mac) && metric in columns
    requires b in archive && second in archive && metric in archive[b]
    ensures b in Taken(archive, width, DAY, b) && DropsNothing(columns, archive, width, DAY, b)
    ensures second in Taken(archive, width, second.ts, b) && !DropsNothing(columns, archive, width, second.ts, b)
  {
    SweptMembers(archive, width, b, second);
    LaterBucketIsWhole(archive, width, DAY, b);
    ValueIsDropped(archive, columns, width, second.ts, b, b, metric);
  }

  lemma {:induction false} ValueIsDropped(minute: MinuteTable, columns: set<string>, width: int, bound: int, b: Key,
                                          k: Key, metric: string)
    requires width > 0 && k in Members(minute, width, b) && SourceTime(width, k.ts) < bound
    requires metric in columns && metric in minute[k]
    ensures !DropsNothing(columns, minute, width, bound, b)
  {
    assert k in Members(minute, width, b) - Taken(minute, width, bound, b);
  }
}
