/**
 * Discovering devices and scanning (src/services/ble/discovery.ts). The
 * adapter's calls are outcome parameters; the background `connectDevice` and
 * `stopScan` calls a discovery starts without waiting are returned to the
 * caller instead of being run inline.
 */
module Discovery {
  import opened Wrappers
  import opened JsString
  import opened Types
  import opened State
  import opened Settings
  import opened Mock
  import opened Interaction

  // ------------------------------------------------------------ device records

  /**
   * The display name of a discovered peripheral: the custom name, else the
   * advertised name, else `Unknown Device`, which becomes a hint of iLink when
   * a service mentions a032.
   */
  function DiscoveredName(p: Peripheral, s: DeviceSetting): (name: string)
    ensures Truthy(s.customName) ==> name == s.customName.value
    ensures !Truthy(s.customName) && Truthy(p.localName) && p.localName.value != "Unknown Device"
      ==> name == p.localName.value
    ensures !Truthy(s.customName) && !Truthy(p.localName) ==> (
      name == (if exists i :: 0 <= i < |p.serviceUuids| && MentionsILink(p.serviceUuids[i])
               then "ilink? (Service A032)" else "Unknown Device"))
    ensures name != ""
  {
    var name := OrElse(s.customName, OrElse(p.localName, "Unknown Device"));
    if !Truthy(s.customName) && name == "Unknown Device"
       && exists i :: 0 <= i < |p.serviceUuids| && MentionsILink(p.serviceUuids[i])
    then "ilink? (Service A032)"
    else name
  }

  /** `peripheral.rssi || -100`: an absent or zero reading counts as -100. */
  function DiscoveredRssi(p: Peripheral): (rssi: int)
    ensures rssi != 0
    ensures p.rssi.Some? && p.rssi.value != 0 ==> rssi == p.rssi.value
    ensures p.rssi.None? || p.rssi == Some(0) ==> rssi == -100
  {
    if p.rssi.Some? && p.rssi.value != 0 then p.rssi.value else -100
  }

  /**
   * `peripheralToDevice`, completed with the stored settings the way a new
   * record is: profile, target, saved flag and last state come from the
   * store, and no characteristic is known yet.
   */
  function NewRecord(p: Peripheral, s: DeviceSetting, now: int): (d: Device)
    ensures d.id == p.id && d.name == DiscoveredName(p, s) && d.rssi == DiscoveredRssi(p)
    ensures d.connected <==> p.state == "connected"
    ensures d.services == p.serviceUuids && d.lastSeen == now && d.characteristics == []
    ensures Mirrors(d, s) && d.state == s.lastState
  {
    Device(p.id, DiscoveredName(p, s), s.customName, DiscoveredRssi(p), p.state == "connected",
           p.serviceUuids, now, s.saved.GetOr(false), s.profileId, s.targetChar, s.lastState, [])
  }

  /**
   * A rediscovered record: fresh signal strength and time, the new name only
   * when it is a real one; everything else is kept.
   */
  function Refreshed(existing: Device, p: Peripheral, s: DeviceSetting, now: int): (d: Device)
    ensures d.rssi == DiscoveredRssi(p) && d.lastSeen == now
    ensures DiscoveredName(p, s) != "Unknown Device" ==> d.name == DiscoveredName(p, s)
    ensures DiscoveredName(p, s) == "Unknown Device" ==> d.name == existing.name
    ensures d.(name := existing.name, rssi := existing.rssi, lastSeen := existing.lastSeen) == existing
  {
    var name := DiscoveredName(p, s);
    existing.(name := if name != "Unknown Device" then name else existing.name,
              rssi := DiscoveredRssi(p), lastSeen := now)
  }

  // ------------------------------------------------------------ the guard (finding)

  /**
   * The auto-connect guard as written: the peripheral's state must not
   * contain `connected` as a substring.
   */
  predicate AutoConnectGuardAsWritten(peripheralState: string) {
    !Includes(peripheralState, "connected")
  }

  /** The guard as intended: the peripheral is not connected already. */
  predicate AutoConnectGuard(peripheralState: string) {
    peripheralState != "connected"
  }

  /**
   * A peripheral in the adapter's ordinary `disconnected` state passes the
   * intended guard but not the written one, so a saved device is never
   * reconnected when it is discovered.
   */
  lemma DisconnectedFailsWrittenGuard()
    ensures !AutoConnectGuardAsWritten("disconnected")
    ensures AutoConnectGuard("disconnected")
  {
    assert "disconnected"[3..12] == "connected";
    IncludesAt("disconnected", "connected", 3);
  }

  /** The intended guard lets every state of the adapter through except `connected`. */
  lemma GuardOnAdapterStates()
    ensures forall s :: s in {"error", "connecting", "disconnecting", "disconnected"} ==> AutoConnectGuard(s)
    ensures !AutoConnectGuard("connected")
  {
  }

  // --------------------------------------------------------------- discovery

  /** The saved devices that are not connected all have a known peripheral. */
  predicate AllSavedKnown(devices: map<string, Device>, peripherals: map<string, Peripheral>) {
    forall id :: id in devices && devices[id].saved && !devices[id].connected ==> id in peripherals
  }

  /**
   * `handleDiscover`: records the peripheral, creates or refreshes the
   * device record, and reports whether a background connect is started and
   * whether an auto scan asks to stop early.
   */
  method HandleDiscover(st: BleState, store: SettingsStore, p: Peripheral, now: int)
    returns (connect: bool, stopRequested: bool)
    requires st.Valid()
    modifies st`devices, st`peripherals, st`events
    ensures st.Valid()
    ensures st.peripherals == old(st.peripherals)[p.id := p]
    ensures p.id in old(st.devices) ==> (
      st.devices == old(st.devices)[p.id := Refreshed(old(st.devices)[p.id], p, store.GetDeviceSettings(p.id), now)]
      && st.events == old(st.events) + [DeviceUpdated(p.id)])
    ensures p.id !in old(st.devices) ==> (
      st.devices == old(st.devices)[p.id := NewRecord(p, store.GetDeviceSettings(p.id), now)]
      && st.events == old(st.events) + [DeviceDiscovered(p.id)])
    ensures connect <==> store.GetDeviceSettings(p.id).saved.GetOr(false) && AutoConnectGuard(p.state)
    ensures stopRequested <==> connect && st.scanType == Some(Auto) && AllSavedKnown(st.devices, st.peripherals)
  {
    var settings := store.GetDeviceSettings(p.id);
    st.peripherals := st.peripherals[p.id := p];
    var existed := p.id in st.devices;
    if existed {
      st.devices := st.devices[p.id := Refreshed(st.devices[p.id], p, settings, now)];
    } else {
      st.devices := st.devices[p.id := NewRecord(p, settings, now)];
      st.EmitEvent(DeviceDiscovered(p.id));
    }
    connect := settings.saved.GetOr(false) && AutoConnectGuard(p.state);
    stopRequested := connect && st.scanType == Some(Auto) && AllSavedKnown(st.devices, st.peripherals);
    if existed {
      st.EmitEvent(DeviceUpdated(p.id));
    }
  }

  // ------------------------------------------------------------------ listing

  /** `id.includes('.') || id.startsWith('192.') || id.startsWith('10.')` */
  predicate IsWifiId(id: string) {
    Includes(id, ".") || StartsWith(id, "192.") || StartsWith(id, "10.")
  }

  /** The WiFi test comes down to the id holding a dot. */
  lemma WifiIdHasDot(id: string)
    ensures IsWifiId(id) <==> '.' in id
  {
    IncludesChar(id, '.');
    if StartsWith(id, "192.") {
      assert id[3] == '.';
    }
    if StartsWith(id, "10.") {
      assert id[2] == '.';
    }
  }

  /** A device record without its characteristics. */
  function Listed(d: Device): (l: ListedDevice)
    ensures l.id == d.id && l.name == d.name && l.connected == d.connected && l.saved == d.saved
    ensures l.state == d.state && l.services == d.services && l.customName == d.customName
    ensures l.rssi == d.rssi && l.lastSeen == d.lastSeen && l.profileId == d.profileId && l.targetChar == d.targetChar
  {
    ListedDevice(d.id, d.name, d.customName, d.rssi, d.connected, d.services, d.lastSeen, d.saved,
                 d.profileId, d.targetChar, d.state)
  }

  /** `getDevices()`: every record whose id is not a WiFi address, without its characteristics. */
  function GetDevices(st: BleState): (ls: set<ListedDevice>)
    reads st
    ensures forall l :: l in ls ==> l.id in st.devices && !IsWifiId(l.id)
    ensures forall id :: id in st.devices && !IsWifiId(id) && st.devices[id].id == id ==> Listed(st.devices[id]) in ls
    ensures st.Valid() ==> forall l :: l in ls ==> l == Listed(st.devices[l.id])
  {
    set id | id in st.devices && !IsWifiId(id) && st.devices[id].id == id :: Listed(st.devices[id])
  }

  /** `getDevice(id)` */
  function GetDevice(st: BleState, id: string): (d: Option<Device>)
    reads st
    ensures d.Some? <==> id in st.devices
    ensures d.Some? ==> d.value == st.devices[id]
  {
    if id in st.devices then Some(st.devices[id]) else None
  }

  // ---------------------------------------------------------------- scanning

  /**
   * `stopScan()`: the scan timer is always cleared; a running scan stops
   * with one `scan_stopped` event; when no scan runs nothing else happens.
   * A failing `stopScanningAsync` is only logged.
   */
  method StopScan(st: BleState)
    modifies st`scanTimerSet, st`isScanning, st`scanType, st`events
    ensures !st.scanTimerSet && !st.isScanning
    ensures old(st.isScanning) ==> (
      st.scanType == None && st.events == old(st.events) + [ScanStopped(|st.devices|, None)])
    ensures !old(st.isScanning) ==> st.scanType == old(st.scanType) && st.events == old(st.events)
  {
    st.scanTimerSet := false;
    if !st.isScanning {
      return;
    }
    st.isScanning := false;
    st.scanType := None;
    st.EmitEvent(ScanStopped(|st.devices|, None));
  }

  /**
   * The registry after the mock scan has met `ds` in order: each fixture
   * whose id is not known yet is added.
   */
  function AddMissing(devices: map<string, Device>, ds: seq<Device>): map<string, Device>
    decreases |ds|
  {
    if ds == [] then devices
    else
      var m := AddMissing(devices, ds[..|ds| - 1]);
      var d := ds[|ds| - 1];
      if d.id in m then m else m[d.id := d]
  }

  /**
   * The mock scan never overwrites a known record, and afterwards every
   * fixture's id is known.
   */
  lemma {:induction false} AddMissingKeeps(devices: map<string, Device>, ds: seq<Device>)
    ensures forall id :: id in devices ==> id in AddMissing(devices, ds) && AddMissing(devices, ds)[id] == devices[id]
    ensures forall i :: 0 <= i < |ds| ==> ds[i].id in AddMissing(devices, ds)
    ensures forall id :: id in AddMissing(devices, ds) && id !in devices ==> exists i :: 0 <= i < |ds| && ds[i].id == id
    decreases |ds|
  {
    if ds != [] {
      var pre := ds[..|ds| - 1];
      AddMissingKeeps(devices, pre);
      assert forall i :: 0 <= i < |pre| ==> pre[i] == ds[i];
    }
  }

  /** The ids that the mock scan announces as discovered, in order. */
  function NewlyFound(devices: map<string, Device>, ds: seq<Device>): (ids: seq<string>)
    ensures forall i :: 0 <= i < |ids| ==> ids[i] !in devices
    decreases |ds|
  {
    if ds == [] then []
    else
      var d := ds[|ds| - 1];
      AddMissingKeeps(devices, ds[..|ds| - 1]);
      NewlyFound(devices, ds[..|ds| - 1])
        + (if d.id in AddMissing(devices, ds[..|ds| - 1]) then [] else [d.id])
  }

  /** The `device_discovered` events announcing `ids`, in order. */
  function Discovered(ids: seq<string>): (es: seq<Event>)
    ensures |es| == |ids|
  {
    seq(|ids|, i requires 0 <= i < |ids| => DeviceDiscovered(ids[i]))
  }

  lemma DiscoveredAppend(a: seq<string>, id: string)
    ensures Discovered(a + [id]) == Discovered(a) + [DeviceDiscovered(id)]
  {
  }

  /** The ids of fixtures whose stored settings say saved and which are not connected. */
  function SavedToConnect(entries: map<string, DeviceSetting>, ds: seq<Device>): (ids: seq<string>)
    ensures |ids| <= |ds|
    decreases |ds|
  {
    if ds == [] then []
    else
      var d := ds[|ds| - 1];
      SavedToConnect(entries, ds[..|ds| - 1]) + (if SettingsFor(entries, d.id).saved.GetOr(false) && !d.connected then [d.id] else [])
  }

  /** The ids returned are exactly those of the fixtures that are saved and not connected. */
  lemma {:induction false} SavedToConnectContents(entries: map<string, DeviceSetting>, ds: seq<Device>)
    ensures forall x :: x in SavedToConnect(entries, ds) ==>
      exists d :: d in ds && d.id == x && SettingsFor(entries, x).saved.GetOr(false) && !d.connected
    ensures forall d :: d in ds && SettingsFor(entries, d.id).saved.GetOr(false) && !d.connected ==>
      d.id in SavedToConnect(entries, ds)
    decreases |ds|
  {
    if ds != [] {
      var pre := ds[..|ds| - 1];
      SavedToConnectContents(entries, pre);
      assert ds == pre + [ds[|ds| - 1]];
    }
  }

  /** On a registry without fixtures, all three are added and announced. */
  lemma MockScanOnEmpty(now: int)
    ensures AddMissing(map[], MockDevices(now)).Keys == {"mock-bulb-1", "mock-strip-1", "mock-desk-1"}
    ensures NewlyFound(map[], MockDevices(now)) == ["mock-bulb-1", "mock-strip-1", "mock-desk-1"]
  {
    var ds := MockDevices(now);
    assert ds[..1][..0] == [];
    assert ds[..2][..1] == ds[..1];
    assert ds[..|ds| - 1] == ds[..2];
    var m1 := AddMissing(map[], ds[..1]);
    assert AddMissing(map[], ds[..1][..0]) == map[];
    assert m1 == map[ds[0].id := ds[0]];
    assert NewlyFound(map[], ds[..1]) == [ds[0].id];
    var m2 := AddMissing(map[], ds[..2]);
    assert m2 == m1[ds[1].id := ds[1]];
    assert NewlyFound(map[], ds[..2]) == [ds[0].id, ds[1].id];
  }

  /** Records stored under their own ids stay so when fixtures are added. */
  lemma {:induction false} AddMissingKeyed(devices: map<string, Device>, ds: seq<Device>)
    requires forall id :: id in devices ==> devices[id].id == id
    ensures forall id :: id in AddMissing(devices, ds) ==> AddMissing(devices, ds)[id].id == id
    decreases |ds|
  {
    if ds != [] {
      AddMissingKeyed(devices, ds[..|ds| - 1]);
    }
  }

  /** One more fixture: how the three folds grow. */
  lemma FixtureStep(m0: map<string, Device>, entries: map<string, DeviceSetting>, ds: seq<Device>, i: nat)
    requires i < |ds|
    ensures var pre, d := ds[..i], ds[i];
      AddMissing(m0, ds[..i + 1])
        == (if d.id in AddMissing(m0, pre) then AddMissing(m0, pre) else AddMissing(m0, pre)[d.id := d])
      && NewlyFound(m0, ds[..i + 1]) == NewlyFound(m0, pre) + (if d.id in AddMissing(m0, pre) then [] else [d.id])
      && SavedToConnect(entries, ds[..i + 1])
        == SavedToConnect(entries, pre)
           + (if SettingsFor(entries, d.id).saved.GetOr(false) && !d.connected then [d.id] else [])
  {
    var post := ds[..i + 1];
    assert post[..|post| - 1] == ds[..i] && post[|post| - 1] == ds[i];
  }

  /**
   * The mock scan's pass over the fixtures `ds`: a fixture whose id is
   * unknown is added and announced; the ids of saved, disconnected fixtures
   * are returned for a background connect.
   */
  method AddFixtures(st: BleState, store: SettingsStore, ds: seq<Device>) returns (connects: seq<string>)
    requires st.Valid()
    requires forall i :: 0 <= i < |ds| ==> ds[i].characteristics == []
    modifies st`devices, st`events
    ensures st.Valid()
    ensures st.devices == AddMissing(old(st.devices), ds)
    ensures st.events == old(st.events) + Discovered(NewlyFound(old(st.devices), ds))
    ensures connects == SavedToConnect(store.entries, ds)
  {
    ghost var m0 := st.devices;
    ghost var e0 := st.events;
    connects := [];
    var i := 0;
    while i < |ds|
      invariant 0 <= i <= |ds|
      invariant st.devices == AddMissing(m0, ds[..i])
      invariant st.events == e0 + Discovered(NewlyFound(m0, ds[..i]))
      invariant connects == SavedToConnect(store.entries, ds[..i])
    {
      var d := ds[i];
      FixtureStep(m0, store.entries, ds, i);
      if d.id !in st.devices {
        st.devices := st.devices[d.id := d.(characteristics := [])];
        st.EmitEvent(DeviceDiscovered(d.id));
        DiscoveredAppend(NewlyFound(m0, ds[..i]), d.id);
      }
      if store.GetDeviceSettings(d.id).saved.GetOr(false) && !d.connected {
        connects := connects + [d.id];
      }
      i := i + 1;
    }
    assert ds[..|ds|] == ds;
    AddMissingKeyed(m0, ds);
  }

  /** How the real scan's adapter calls settle. */
  datatype ScanOutcome = ScanOutcome(
    poweredOnInTime: bool,        // the adapter reaches `poweredOn` within the 5 s wait
    startError: Option<string>)   // `startScanningAsync` rejects with this message

  /**
   * `startScan(durationMs, type)`. A scan already running returns the
   * current list unchanged. Otherwise `scan_started` is emitted first, and:
   * the mock scan adds the fixtures it does not know and ends at once (its
   * scan type stays set); without the adapter library the scan flag drops
   * and the call fails; an adapter that does not power on in time fails the
   * call with the scan flag still set; a start that fails ends the scan with
   * the error; a start that succeeds leaves the scan running with its timer
   * armed. The ids of saved fixtures the mock scan connects in the
   * background are returned in `connects`.
   */
  method StartScan(st: BleState, store: SettingsStore, durationMs: int, kind: ScanKind, now: int, outcome: ScanOutcome)
    returns (r: Result<set<ListedDevice>>, connects: seq<string>)
    requires st.Valid()
    modifies st`devices, st`isScanning, st`scanType, st`events, st`scanTimerSet, st`nobleState
    ensures st.Valid()
    ensures old(st.isScanning) ==> (
      r == Ok(GetDevices(st)) && connects == [] && st.devices == old(st.devices)
      && st.events == old(st.events) && st.scanType == old(st.scanType) && st.isScanning)
    ensures !old(st.isScanning) ==> (
      |st.events| > |old(st.events)| && st.events[|old(st.events)|] == ScanStarted(durationMs, kind)
      && st.scanType == Some(kind))
    ensures !old(st.isScanning) && st.isMockMode ==> (
      var ds := MockDevices(now);
      st.devices == AddMissing(old(st.devices), ds)
      && st.events == old(st.events) + [ScanStarted(durationMs, kind)]
           + Discovered(NewlyFound(old(st.devices), ds)) + [ScanStopped(|st.devices|, None)]
      && !st.isScanning && r == Ok(GetDevices(st)) && connects == SavedToConnect(store.entries, ds))
    ensures !old(st.isScanning) && !st.isMockMode ==> st.devices == old(st.devices) && connects == []
    ensures !old(st.isScanning) && !st.isMockMode && !st.nobleLoaded ==> (
      r == Err("Noble not initialized") && !st.isScanning
      && st.events == old(st.events) + [ScanStarted(durationMs, kind)])
    ensures (!old(st.isScanning) && !st.isMockMode && st.nobleLoaded
      && old(st.nobleState) != "poweredOn" && !outcome.poweredOnInTime) ==> (
      r == Err("Bluetooth adapter not ready (state: " + old(st.nobleState) + ")") && st.isScanning
      && st.events == old(st.events) + [ScanStarted(durationMs, kind)])
    ensures (!old(st.isScanning) && !st.isMockMode && st.nobleLoaded
      && (old(st.nobleState) == "poweredOn" || outcome.poweredOnInTime)) ==> (
      st.nobleState == "poweredOn"
      && (outcome.startError.None? ==> (
            r == Ok(GetDevices(st)) && st.isScanning && st.scanTimerSet
            && st.events == old(st.events) + [ScanStarted(durationMs, kind)]))
      && (outcome.startError.Some? ==> (
            r == Err(outcome.startError.value) && !st.isScanning
            && st.events == old(st.events) + [ScanStarted(durationMs, kind),
                                              ScanStopped(|st.devices|, outcome.startError)])))
  {
    connects := [];
    if st.isScanning {
      return Ok(GetDevices(st)), [];
    }
    if st.isMockMode {
      r, connects := ScanFixtures(st, store, durationMs, kind, now);
    } else {
      r := ScanRadio(st, durationMs, kind, outcome);
    }
  }

  /** The start of every scan: the flag and the type are set and `scan_started` is emitted. */
  method BeginScan(st: BleState, durationMs: int, kind: ScanKind)
    requires st.Valid()
    modifies st`isScanning, st`scanType, st`events
    ensures st.Valid()
    ensures st.isScanning && st.scanType == Some(kind)
    ensures st.events == old(st.events) + [ScanStarted(durationMs, kind)]
  {
    st.isScanning := true;
    st.scanType := Some(kind);
    st.EmitEvent(ScanStarted(durationMs, kind));
  }

  /** The mock branch of a scan: the fixtures are added, then the scan stops at once. */
  method ScanFixtures(st: BleState, store: SettingsStore, durationMs: int, kind: ScanKind, now: int)
    returns (r: Result<set<ListedDevice>>, connects: seq<string>)
    requires st.Valid()
    modifies st`devices, st`isScanning, st`scanType, st`events
    ensures st.Valid()
    ensures st.devices == AddMissing(old(st.devices), MockDevices(now))
    ensures st.events == old(st.events) + [ScanStarted(durationMs, kind)]
      + Discovered(NewlyFound(old(st.devices), MockDevices(now))) + [ScanStopped(|st.devices|, None)]
    ensures !st.isScanning && st.scanType == Some(kind) && r == Ok(GetDevices(st))
    ensures connects == SavedToConnect(store.entries, MockDevices(now))
  {
    BeginScan(st, durationMs, kind);
    connects := AddFixtures(st, store, MockDevices(now));
    st.isScanning := false;
    st.EmitEvent(ScanStopped(|st.devices|, None));
    r := Ok(GetDevices(st));
  }

  /** The radio branch of a scan. */
  method ScanRadio(st: BleState, durationMs: int, kind: ScanKind, outcome: ScanOutcome)
    returns (r: Result<set<ListedDevice>>)
    requires st.Valid()
    modifies st`isScanning, st`scanType, st`events, st`scanTimerSet, st`nobleState
    ensures st.Valid()
    ensures st.scanType == Some(kind)
    ensures |st.events| > |old(st.events)| && st.events[|old(st.events)|] == ScanStarted(durationMs, kind)
    ensures !st.nobleLoaded ==> (
      r == Err("Noble not initialized") && !st.isScanning
      && st.events == old(st.events) + [ScanStarted(durationMs, kind)])
    ensures st.nobleLoaded && old(st.nobleState) != "poweredOn" && !outcome.poweredOnInTime ==> (
      r == Err("Bluetooth adapter not ready (state: " + old(st.nobleState) + ")")
      && st.isScanning && st.events == old(st.events) + [ScanStarted(durationMs, kind)])
    ensures st.nobleLoaded && (old(st.nobleState) == "poweredOn" || outcome.poweredOnInTime) ==> (
      st.nobleState == "poweredOn"
      && (outcome.startError.None? ==> (
            r == Ok(GetDevices(st)) && st.isScanning && st.scanTimerSet
            && st.events == old(st.events) + [ScanStarted(durationMs, kind)]))
      && (outcome.startError.Some? ==> (
            r == Err(outcome.startError.value) && !st.isScanning
            && st.events == old(st.events) + [ScanStarted(durationMs, kind),
                                              ScanStopped(|st.devices|, outcome.startError)])))
  {
    BeginScan(st, durationMs, kind);
    if !st.nobleLoaded {
      st.isScanning := false;
      return Err("Noble not initialized");
    }

    if st.nobleState != "poweredOn" {
      if !outcome.poweredOnInTime {
        return Err("Bluetooth adapter not ready (state: " + st.nobleState + ")");
      }
      st.nobleState := "poweredOn";
    }

    match outcome.startError
    case None =>
      st.scanTimerSet := true;
      r := Ok(GetDevices(st));
    case Some(message) =>
      st.isScanning := false;
      st.EmitEvent(ScanStopped(|st.devices|, Some(message)));
      r := Err(message);
  }

}
