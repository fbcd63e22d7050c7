/**
 What one registration of a device does (internal/sensorstore/store.go:19-107): when it
 is let through, which error it meets otherwise, and every field of the row it leaves.
 */
module DeviceRows {
  import opened Minutes
  import opened SensorStore
  import opened Text
  import opened Wrappers

  function AddressOf(d: Device): string { NormalizeMAC(d.mac) }

  /** The source a call names, if it names one explicitly. */
  function Claim(d: Device): Option<string> { if d.ingestSourceExplicit then Some(Trim(d.ingestSource)) else None }

  predicate NamesUnknownType(types: map<string, string>, d: Device) {
    Trim(d.sensorTypeCode) != "" && Trim(d.sensorTypeCode) !in types
  }

  predicate ContradictsType(types: map<string, string>, d: Device) {
    && Trim(d.sensorTypeCode) in types && Trim(d.sensorTypeCode) != ""
    && Trim(d.sensorCategory) != "" && Trim(d.sensorCategory) != types[Trim(d.sensorTypeCode)]
  }

  predicate OwnedByOther(devices: Registry, d: Device) {
    && AddressOf(d) in devices && devices[AddressOf(d)].ingestSource.Some?
    && devices[AddressOf(d)].ingestSource != Claim(d)
  }

  /** The errors in the order in which they are looked for; without any of them the call succeeds. */
  lemma {:induction false} SyncFailsIff(devices: Registry, types: map<string, string>, d: Device)
    ensures Sync(devices, types, d) == Err(MissingDeviceMAC) <==> AddressOf(d) == ""
    ensures Sync(devices, types, d) == Err(EmptySource) <==> AddressOf(d) != "" && Claim(d) == Some("")
    ensures Sync(devices, types, d) == Err(UnknownSensorType) <==> Named(d) && NamesUnknownType(types, d)
    ensures Sync(devices, types, d) == Err(CategoryMismatch) <==> Named(d) && ContradictsType(types, d)
    ensures Sync(devices, types, d) == Err(OwnershipConflict)
      <==> Named(d) && !NamesUnknownType(types, d) && !ContradictsType(types, d) && OwnedByOther(devices, d)
  {
  }

  /** The address is one, and so is the source that is claimed. */
  predicate Named(d: Device) { AddressOf(d) != "" && Claim(d) != Some("") }

  /** A registration changes its own device's row alone, and a failed one nothing. */
  lemma {:induction false} OtherDevicesStay(devices: Registry, types: map<string, string>, d: Device, mac: string)
    requires mac != AddressOf(d) || Sync(devices, types, d).Err?
    ensures mac in Synced(devices, types, d) <==> mac in devices
    ensures mac in devices ==> Synced(devices, types, d)[mac] == devices[mac]
  {
  }

  function Given(text: string, otherwise: string): string { if Trim(text) != "" then Trim(text) else otherwise }

  function LabelOf(d: Device): string { Given(d.labelText, AddressOf(d)) }

  /** The last value named, by this call or by the row. */
  function Latest(named: string, before: Option<string>): Option<string> {
    if named != "" then Some(named) else before
  }

  /** The category that comes with the type wins over the one that is given. */
  function CategoryOf(types: map<string, string>, d: Device): string {
    if Trim(d.sensorTypeCode) in types && Trim(d.sensorTypeCode) != "" then types[Trim(d.sensorTypeCode)]
    else Trim(d.sensorCategory)
  }

  /** A new device takes every field from the call; the label falls back to the address, the location to the label. */
  lemma {:induction false} NewDeviceRow(devices: Registry, types: map<string, string>, d: Device)
    requires Sync(devices, types, d).Ok? && AddressOf(d) !in devices
    ensures AddressOf(d) in Synced(devices, types, d)
    ensures var row := Synced(devices, types, d)[AddressOf(d)];
      && row.labelText == LabelOf(d) && row.location == Given(d.location, LabelOf(d))
      && row.ingestSource == Claim(d) && row.enabled == d.enabled
      && row.sensorTypeCode == Latest(Trim(d.sensorTypeCode), None)
      && row.sensorCategory == Latest(CategoryOf(types, d), None)
  {
  }

  /** A known device keeps what it is told to preserve, and its type and category when the call names none. */
  lemma {:induction false} KnownDeviceRow(devices: Registry, types: map<string, string>, d: Device)
    requires Sync(devices, types, d).Ok? && AddressOf(d) in devices
    ensures AddressOf(d) in Synced(devices, types, d)
    ensures var before, row := devices[AddressOf(d)], Synced(devices, types, d)[AddressOf(d)];
      && row.labelText == (if d.preserveExistingLabel then before.labelText else LabelOf(d))
      && row.location == (if d.preserveExistingLocation then before.location else Given(d.location, LabelOf(d)))
      && row.ingestSource == (if before.ingestSource.Some? then before.ingestSource else Claim(d))
      && row.enabled == d.enabled
      && row.sensorTypeCode == Latest(Trim(d.sensorTypeCode), before.sensorTypeCode)
      && row.sensorCategory == Latest(CategoryOf(types, d), before.sensorCategory)
  {
  }

  /** Sixty seconds share a row, which is dated by the first of them. */
  lemma {:induction false} MinuteRows(ts: int)
    ensures (ts - ts % MINUTE) % 60 == 0 && ts - ts % MINUTE <= ts < ts - ts % MINUTE + 60
  {
  }
}
