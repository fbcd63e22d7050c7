/**
 The shared store (internal/sensorstore/store.go): sparse minute upserts, and the
 device registry with one owning collector per device.
 */
module SensorStore {
  import opened Minutes
  import opened Text
  import opened Wrappers

  // ---------------------------------------------------------------- minutes

  datatype MinuteError = MissingMAC | MissingTimestamp | DatabaseFailed

  datatype Write = Write(key: Key, values: map<string, real>)

  function Replay(writes: seq<Write>): MinuteTable {
    if writes == [] then map[]
    else Merged(Replay(writes[..|writes| - 1]), writes[|writes| - 1].key, writes[|writes| - 1].values)
  }

  /** The value of the last write that carries the metric. */
  function Latest(writes: seq<Write>, key: Key, metric: string): Option<real> {
    if writes == [] then None
    else
      var w := writes[|writes| - 1];
      if w.key == key && metric in w.values then Some(w.values[metric])
      else Latest(writes[..|writes| - 1], key, metric)
  }

  /** A sparse write replaces what it carries and erases nothing. */
  lemma {:induction false} ColumnIsLatestWrite(writes: seq<Write>, key: Key, metric: string)
    ensures Column(Replay(writes), key, metric) == Latest(writes, key, metric)
  {
    if writes == [] {
    } else {
      ColumnIsLatestWrite(writes[..|writes| - 1], key, metric);
    }
  }

  lemma {:induction false} ColumnNeverReturnsToNull(writes: seq<Write>, more: seq<Write>, key: Key, metric: string)
    requires Column(Replay(writes), key, metric).Some?
    ensures Column(Replay(writes + more), key, metric).Some?
  {
    if more == [] {
      assert writes + more == writes;
    } else {
      ColumnNeverReturnsToNull(writes, more[..|more| - 1], key, metric);
      assert (writes + more)[..|writes + more| - 1] == writes + more[..|more| - 1];
    }
  }

  // ---------------------------------------------------------------- devices

  datatype Device = Device(mac: string, labelText: string, location: string, ingestSource: string,
                           ingestSourceExplicit: bool,
                           sensorTypeCode: string, sensorCategory: string, enabled: bool,
                           preserveExistingLabel: bool, preserveExistingLocation: bool)
  datatype DeviceRow = DeviceRow(labelText: string, location: string, ingestSource: Option<string>,
                                 sensorTypeCode: Option<string>, sensorCategory: Option<string>, enabled: bool)
  datatype SyncError = MissingDeviceMAC | EmptySource | UnknownSensorType | CategoryMismatch | OwnershipConflict

  type Registry = map<string, DeviceRow>

  function NullIf(s: string): Option<string> { if s == "" then None else Some(s) }

  function Coalesce<T>(a: Option<T>, b: Option<T>): Option<T> { if a.Some? then a else b }

  function OrElse(s: string, fallback: string): string { if s == "" then fallback else s }

  /** The insert or update of syncDeviceSQL; None where its WHERE clause rejects the row. */
  function Upserted(devices: Registry, d: Device, source: Option<string>): Option<DeviceRow> {
    var inserted := DeviceRow(d.labelText, d.location, source, NullIf(d.sensorTypeCode), NullIf(d.sensorCategory),
                              d.enabled);
    if d.mac !in devices then Some(inserted)
    else
      var row := devices[d.mac];
      if row.ingestSource.Some? && row.ingestSource != source then None
      else Some(DeviceRow(
                  if d.preserveExistingLabel then row.labelText else inserted.labelText,
                  if d.preserveExistingLocation then row.location else inserted.location,
                  Coalesce(row.ingestSource, source),
                  Coalesce(inserted.sensorTypeCode, row.sensorTypeCode),
                  Coalesce(inserted.sensorCategory, row.sensorCategory),
                  inserted.enabled))
  }

  /** The device with its fields normalised and defaulted. */
  function Normalised(d: Device): Device {
    var mac := NormalizeMAC(d.mac);
    var labelText := OrElse(Trim(d.labelText), mac);
    d.(mac := mac, labelText := labelText, location := OrElse(Trim(d.location), labelText),
       ingestSource := Trim(d.ingestSource),
       sensorTypeCode := Trim(d.sensorTypeCode), sensorCategory := Trim(d.sensorCategory))
  }

  /** What a call must do: the row it stores, or the reason it is rejected. */
  function Sync(devices: Registry, types: map<string, string>, device: Device): Result<DeviceRow, SyncError> {
    SyncNormalised(devices, types, Normalised(device))
  }

  function SyncNormalised(devices: Registry, types: map<string, string>, d: Device): Result<DeviceRow, SyncError> {
    if d.mac == "" then Err(MissingDeviceMAC)
    else if d.ingestSourceExplicit && d.ingestSource == "" then Err(EmptySource)
    else if d.sensorTypeCode != "" && d.sensorTypeCode !in types then Err(UnknownSensorType)
    else if d.sensorTypeCode != "" && d.sensorCategory != ""
      && d.sensorCategory != types[d.sensorTypeCode] then Err(CategoryMismatch)
    else
      var d' := if d.sensorTypeCode != "" then d.(sensorCategory := types[d.sensorTypeCode]) else d;
      var row := Upserted(devices, d', SourceOf(d));
      if row.Some? then Ok(row.value) else Err(OwnershipConflict)
  }

  function Synced(devices: Registry, types: map<string, string>, device: Device): Registry {
    match Sync(devices, types, device)
    case Ok(row) => devices[Normalised(device).mac := row]
    case Err(_) => devices
  }

  // ---------------------------------------------------------------- the store

  class Store {
    var minutes: MinuteTable
    var devices: Registry
    var sensorTypes: map<string, string>

    constructor (types: map<string, string>)
      ensures minutes == map[] && devices == map[] && sensorTypes == types
    {
      minutes, devices, sensorTypes := map[], map[], types;
    }

    /** `ts` is None for the zero time; `fails` is the database's answer to the statement. */
    method UpsertMinute(ts: Option<int>, mac: string, values: map<string, real>, fails: bool)
      returns (r: Result<bool, MinuteError>)
      modifies this`minutes
      ensures r == if NormalizeMAC(mac) == "" then Err(MissingMAC)
                   else if ts.None? then Err(MissingTimestamp)
                   else if values == map[] then Ok(false)
                   else if fails then Err(DatabaseFailed)
                   else Ok(true)
      ensures minutes == if r == Ok(true)
        then Merged(old(minutes), Key(ts.value - ts.value % MINUTE, NormalizeMAC(mac)), values)
                         else old(minutes)
    {
      var normal := NormalizeMAC(mac);
      if normal == "" {
        return Err(MissingMAC);
      }
      if ts.None? {
        return Err(MissingTimestamp);
      }
      if values == map[] {
        return Ok(false);
      }
      if fails {
        return Err(DatabaseFailed);
      }
      minutes := Merged(minutes, Key(ts.value - ts.value % MINUTE, normal), values);
      return Ok(true);
    }

    method SyncDevice(given: Device) returns (r: Result<DeviceRow, SyncError>)
      modifies this`devices
      ensures r == Sync(old(devices), sensorTypes, given)
      ensures devices == Synced(old(devices), sensorTypes, given)
    {
      var device := Normalise(given);
      r := SyncNormal(device);
    }

    /** Trims and defaults the fields of a device one by one. */
    method Normalise(given: Device) returns (device: Device)
      ensures device == Normalised(given)
    {
      device := given;
      device := device.(mac := NormalizeMAC(device.mac), labelText := Trim(device.labelText),
                        location := Trim(device.location));
      device := device.(ingestSource := Trim(device.ingestSource), sensorTypeCode := Trim(device.sensorTypeCode),
                        sensorCategory := Trim(device.sensorCategory));
      if device.labelText == "" {
        device := device.(labelText := device.mac);
      }
      if device.location == "" {
        device := device.(location := device.labelText);
      }
    }

    method SyncNormal(given: Device) returns (r: Result<DeviceRow, SyncError>)
      modifies this`devices
      ensures r == SyncNormalised(old(devices), sensorTypes, given)
      ensures devices == match r case Ok(row) => old(devices)[given.mac := row] case Err(_) => old(devices)
    {
      var device := given;
      if device.mac == "" {
        return Err(MissingDeviceMAC);
      }
      if device.ingestSourceExplicit && device.ingestSource == "" {
        return Err(EmptySource);
      }
      if device.sensorTypeCode != "" {
        if device.sensorTypeCode !in sensorTypes {
          return Err(UnknownSensorType);
        }
        var registeredCategory := sensorTypes[device.sensorTypeCode];
        if device.sensorCategory == "" {
          device := device.(sensorCategory := registeredCategory);
        } else if device.sensorCategory != registeredCategory {
          return Err(CategoryMismatch);
        }
      }
      var source: Option<string> := None;
      if device.ingestSourceExplicit {
        source := Some(device.ingestSource);
      }
      var row := Upserted(devices, device, source);
      if row.None? {
        return Err(OwnershipConflict);
      }
      devices := devices[device.mac := row.value];
      return Ok(row.value);
    }
  }

  // ---------------------------------------------------------------- ownership is claimed once

  /** The registry after calls from any collectors, in the order the database served them. */
  function Served(types: map<string, string>, calls: seq<Device>): Registry {
    if calls == [] then map[] else Synced(Served(types, calls[..|calls| - 1]), types, calls[|calls| - 1])
  }

  function Owner(devices: Registry, mac: string): Option<string> {
    if mac in devices then devices[mac].ingestSource else None
  }

  /** The WHERE clause lets a row through only with its owner, and a claim with its claimant, as the source. */
  lemma {:induction false} UpsertRespectsOwner(devices: Registry, d: Device, source: Option<string>, row: DeviceRow)
    requires Upserted(devices, d, source) == Some(row)
    ensures row.ingestSource == source
    ensures Owner(devices, d.mac).Some? ==> row.ingestSource == Owner(devices, d.mac)
  {
  }

  function SourceOf(d: Device): Option<string> {
    if d.ingestSourceExplicit then Some(d.ingestSource) else None
  }

  /** What a call stores is an upsert of its device under its source. */
  lemma {:induction false} SyncUpserts(devices: Registry, types: map<string, string>, d: Device, row: DeviceRow)
    returns (typed: Device)
    requires SyncNormalised(devices, types, d) == Ok(row)
    ensures typed.mac == d.mac && Upserted(devices, typed, SourceOf(d)) == Some(row)
  {
    typed := if d.sensorTypeCode != "" then d.(sensorCategory := types[d.sensorTypeCode]) else d;
  }

  /** One call never takes a device from its owner; an explicit success makes the caller the owner. */
  lemma {:induction false} SyncRespectsOwner(devices: Registry, types: map<string, string>, d: Device, mac: string)
    ensures Owner(devices, mac).Some? ==> Owner(Synced(devices, types, d), mac) == Owner(devices, mac)
    ensures Sync(devices, types, d).Ok? ==>
      Owner(Synced(devices, types, d), NormalizeMAC(d.mac)) == SourceOf(Normalised(d))
    ensures Sync(devices, types, d).Err? ==> Synced(devices, types, d) == devices
  {
    var result := Sync(devices, types, d);
    if result.Ok? {
      var typed := SyncUpserts(devices, types, Normalised(d), result.value);
      UpsertRespectsOwner(devices, typed, SourceOf(Normalised(d)), result.value);
    }
  }

  lemma {:induction false} OwnerStays(types: map<string, string>, calls: seq<Device>, n: nat, mac: string)
    requires n <= |calls| && Owner(Served(types, calls[..n]), mac).Some?
    ensures Owner(Served(types, calls), mac) == Owner(Served(types, calls[..n]), mac)
  {
    if n == |calls| {
      assert calls[..n] == calls;
    } else {
      var before := calls[..|calls| - 1];
      assert before[..n] == calls[..n];
      OwnerStays(types, before, n, mac);
      SyncRespectsOwner(Served(types, before), types, calls[|calls| - 1], mac);
    }
  }

  ghost predicate SucceedsAt(types: map<string, string>, calls: seq<Device>, i: nat)
    requires i < |calls|
  {
    Sync(Served(types, calls[..i]), types, calls[i]).Ok?
  }

  /** All explicit claims on one device that ever succeed name the same source. */
  lemma {:induction false} OwnershipIsClaimedOnce(types: map<string, string>, calls: seq<Device>, i: nat, j: nat)
    requires i < j < |calls| && NormalizeMAC(calls[i].mac) == NormalizeMAC(calls[j].mac)
    requires calls[i].ingestSourceExplicit && SucceedsAt(types, calls, i)
    ensures Owner(Served(types, calls), NormalizeMAC(calls[i].mac)) == Some(Trim(calls[i].ingestSource))
    ensures SucceedsAt(types, calls, j) <==>
      calls[j].ingestSourceExplicit && Trim(calls[j].ingestSource) == Trim(calls[i].ingestSource)
      && ValidType(types, calls[j])
  {
    var mac := NormalizeMAC(calls[i].mac);
    assert calls[..i + 1][..i] == calls[..i];
    SyncRespectsOwner(Served(types, calls[..i]), types, calls[i], mac);
    assert calls[..j][..i + 1] == calls[..i + 1];
    OwnerStays(types, calls[..j], i + 1, mac);
    OwnerStays(types, calls, i + 1, mac);
    ClaimOnOwned(Served(types, calls[..j]), types, calls[j], mac);
  }

  /** A sensor type is registered, and its category not contradicted. */
  predicate ValidType(types: map<string, string>, d: Device) {
    var code, category := Trim(d.sensorTypeCode), Trim(d.sensorCategory);
    code == "" || (code in types && (category == "" || category == types[code]))
  }

  lemma {:induction false} ClaimOnOwned(devices: Registry, types: map<string, string>, d: Device, mac: string)
    requires mac == NormalizeMAC(d.mac) != "" && Owner(devices, mac).Some? && Owner(devices, mac).value != ""
    ensures Sync(devices, types, d).Ok? <==>
      d.ingestSourceExplicit && Some(Trim(d.ingestSource)) == Owner(devices, mac) && ValidType(types, d)
  {
  }
}
