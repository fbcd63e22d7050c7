/** The table of minute values that collectors write and the maintenance job reads. */
module Minutes {
  import opened Wrappers

  datatype Key = Key(ts: int, mac: string)

  type MinuteTable = map<Key, map<string, real>>  // an absent metric is NULL

  const MINUTE := 60

  /** ON CONFLICT ... COALESCE(EXCLUDED.column, sensor_minute.column), for every column. */
  function Merged(minutes: MinuteTable, key: Key, values: map<string, real>): MinuteTable {
    minutes[key := (if key in minutes then minutes[key] else map[]) + values]
  }

  function Column(minutes: MinuteTable, key: Key, metric: string): Option<real> {
    if key in minutes && metric in minutes[key] then Some(minutes[key][metric]) else None
  }
}
