/**
 * Connecting and disconnecting devices (src/services/ble/connection.ts).
 * The adapter's `connectAsync`, `discoverAllServicesAndCharacteristicsAsync`
 * and `readAsync` results are outcome parameters.
 */
module Connection {
  import opened Wrappers
  import opened JsString
  import opened Types
  import opened State
  import opened Settings
  import opened Mock
  import opened Interaction
  import opened Discovery

  // ------------------------------------------------------------ service uuids

  /** `uuid.toLowerCase().replace(/-/g, '')` */
  function NormalizeUuid(u: string): (n: string)
    ensures '-' !in n && |n| <= |u|
  {
    RemoveAll(ToLower(u), '-')
  }

  /** `set.add(x)` on a set kept in insertion order. */
  function AddUnique(xs: seq<string>, x: string): (ys: seq<string>)
    ensures x in ys && forall y :: y in xs ==> y in ys
    ensures forall y :: y in ys ==> y in xs || y == x
    ensures x in xs ==> ys == xs
    ensures x !in xs ==> ys == xs + [x]
  {
    if x in xs then xs else xs + [x]
  }

  predicate NoDuplicates(xs: seq<string>) {
    forall i, j :: 0 <= i < j < |xs| ==> xs[i] != xs[j]
  }

  lemma AddUniqueKeepsDistinct(xs: seq<string>, x: string)
    requires NoDuplicates(xs)
    ensures NoDuplicates(AddUnique(xs, x))
  {
  }

  /** A characteristic as `discoverAllServicesAndCharacteristicsAsync` reports it. */
  datatype FoundChar = FoundChar(uuid: string, internalServiceUuid: Option<string>, properties: seq<string>)

  /** `char._serviceUuid || 'unknown'` */
  function ServiceOf(c: FoundChar): (s: string)
    ensures s != ""
  {
    OrElse(c.internalServiceUuid, "unknown")
  }

  /** The service uuids after the first loop: each service's normalised uuid, once. */
  function ServiceSet(services: seq<string>): (us: seq<string>)
    decreases |services|
  {
    if services == [] then [] else AddUnique(ServiceSet(services[..|services| - 1]), NormalizeUuid(services[|services| - 1]))
  }

  /** The service uuids after the second loop: the characteristics' known services added. */
  function WithCharServices(us: seq<string>, chars: seq<FoundChar>): (vs: seq<string>)
    decreases |chars|
  {
    if chars == [] then us
    else
      var vs := WithCharServices(us, chars[..|chars| - 1]);
      var n := NormalizeUuid(ServiceOf(chars[|chars| - 1]));
      if n != "unknown" then AddUnique(vs, n) else vs
  }

  /** The normalised uuids of the discovered services. */
  function NormalizedServices(services: seq<string>): set<string> {
    set u | u in services :: NormalizeUuid(u)
  }

  /** The normalised services the characteristics name, `unknown` excepted. */
  function KnownCharServices(chars: seq<FoundChar>): set<string> {
    set c | c in chars && NormalizeUuid(ServiceOf(c)) != "unknown" :: NormalizeUuid(ServiceOf(c))
  }

  function Elements(xs: seq<string>): set<string> {
    set x | x in xs
  }

  lemma ElementsAddUnique(xs: seq<string>, x: string)
    ensures Elements(AddUnique(xs, x)) == Elements(xs) + {x}
  {
  }

  lemma {:induction false} ServiceSetContents(services: seq<string>)
    ensures NoDuplicates(ServiceSet(services))
    ensures Elements(ServiceSet(services)) == NormalizedServices(services)
    decreases |services|
  {
    if services != [] {
      var pre := services[..|services| - 1];
      var last := services[|services| - 1];
      ServiceSetContents(pre);
      assert services == pre + [last];
      assert NormalizedServices(services) == NormalizedServices(pre) + {NormalizeUuid(last)};
      AddUniqueKeepsDistinct(ServiceSet(pre), NormalizeUuid(last));
      ElementsAddUnique(ServiceSet(pre), NormalizeUuid(last));
    }
  }

  /** Adding the characteristics' services keeps the list free of duplicates. */
  lemma {:induction false} WithCharServicesDistinct(us: seq<string>, chars: seq<FoundChar>)
    requires NoDuplicates(us)
    ensures NoDuplicates(WithCharServices(us, chars))
    decreases |chars|
  {
    if chars != [] {
      var pre := chars[..|chars| - 1];
      WithCharServicesDistinct(us, pre);
      AddUniqueKeepsDistinct(WithCharServices(us, pre), NormalizeUuid(ServiceOf(chars[|chars| - 1])));
    }
  }

  lemma KnownCharServicesSnoc(pre: seq<FoundChar>, last: FoundChar)
    ensures var n := NormalizeUuid(ServiceOf(last));
      KnownCharServices(pre + [last]) == KnownCharServices(pre) + (if n != "unknown" then {n} else {})
  {
    assert forall c :: c in pre + [last] <==> c in pre || c == last;
  }

  /** Adding the characteristics' services adds exactly the known ones. */
  lemma {:induction false} WithCharServicesElements(us: seq<string>, chars: seq<FoundChar>)
    ensures Elements(WithCharServices(us, chars)) == Elements(us) + KnownCharServices(chars)
    decreases |chars|
  {
    if chars == [] {
      assert KnownCharServices(chars) == {};
    } else {
      var pre := chars[..|chars| - 1];
      var last := chars[|chars| - 1];
      WithCharServicesElements(us, pre);
      assert chars == pre + [last];
      KnownCharServicesSnoc(pre, last);
      ElementsAddUnique(WithCharServices(us, pre), NormalizeUuid(ServiceOf(last)));
    }
  }

  /**
   * The device's service list after a connect holds every normalised
   * service uuid and every known service of a characteristic, each once,
   * and nothing else.
   */
  lemma ServiceListContents(services: seq<string>, chars: seq<FoundChar>)
    ensures NoDuplicates(WithCharServices(ServiceSet(services), chars))
    ensures Elements(WithCharServices(ServiceSet(services), chars))
      == NormalizedServices(services) + KnownCharServices(chars)
  {
    ServiceSetContents(services);
    WithCharServicesDistinct(ServiceSet(services), chars);
    WithCharServicesElements(ServiceSet(services), chars);
  }

  /** The two loops of `connectDevice` that gather the service uuids. */
  method CollectServices(services: seq<string>, chars: seq<FoundChar>) returns (uuids: seq<string>)
    ensures uuids == WithCharServices(ServiceSet(services), chars)
    ensures NoDuplicates(uuids)
    ensures Elements(uuids) == NormalizedServices(services) + KnownCharServices(chars)
  {
    uuids := [];
    var i := 0;
    while i < |services|
      invariant 0 <= i <= |services|
      invariant uuids == ServiceSet(services[..i])
    {
      assert services[..i + 1][..i] == services[..i];
      uuids := AddUnique(uuids, NormalizeUuid(services[i]));
      i := i + 1;
    }
    assert services[..|services|] == services;
    ghost var base := uuids;
    var j := 0;
    while j < |chars|
      invariant 0 <= j <= |chars|
      invariant uuids == WithCharServices(base, chars[..j])
    {
      assert chars[..j + 1][..j] == chars[..j];
      var n := NormalizeUuid(ServiceOf(chars[j]));
      if n != "unknown" {
        uuids := AddUnique(uuids, n);
      }
      j := j + 1;
    }
    assert chars[..|chars|] == chars;
    ServiceListContents(services, chars);
  }

  // ---------------------------------------------------------- characteristics

  /** `charMap`: each characteristic under its uuid as reported; a later one with the same uuid wins. */
  function CharMapOf(chars: seq<FoundChar>): (m: map<string, CharHandle>)
    decreases |chars|
  {
    if chars == [] then map[]
    else
      var c := chars[|chars| - 1];
      CharMapOf(chars[..|chars| - 1])[c.uuid := CharHandle(c.uuid, c.properties)]
  }

  /** The map holds exactly the reported uuids. */
  lemma {:induction false} CharMapKeys(chars: seq<FoundChar>)
    ensures forall u :: u in CharMapOf(chars) <==> exists i :: 0 <= i < |chars| && chars[i].uuid == u
    decreases |chars|
  {
    if chars != [] {
      var pre := chars[..|chars| - 1];
      CharMapKeys(pre);
      assert forall i :: 0 <= i < |pre| ==> pre[i] == chars[i];
    }
  }

  /** Under each uuid the map holds the last characteristic reported with it. */
  lemma {:induction false} CharMapLastWins(chars: seq<FoundChar>, i: nat)
    requires i < |chars|
    requires forall j :: i < j < |chars| ==> chars[j].uuid != chars[i].uuid
    ensures chars[i].uuid in CharMapOf(chars)
    ensures CharMapOf(chars)[chars[i].uuid] == CharHandle(chars[i].uuid, chars[i].properties)
    decreases |chars|
  {
    if i < |chars| - 1 {
      var pre := chars[..|chars| - 1];
      assert pre[i] == chars[i];
      forall j | i < j < |pre| ensures pre[j].uuid != pre[i].uuid {
        assert pre[j] == chars[j];
      }
      CharMapLastWins(pre, i);
    }
  }

  /** `bleChars`: the device record's list, in the order reported. */
  function CharRecords(chars: seq<FoundChar>): (cs: seq<Characteristic>)
    ensures |cs| == |chars|
    ensures forall i :: 0 <= i < |chars| ==>
      cs[i] == Characteristic(chars[i].uuid, ServiceOf(chars[i]), chars[i].properties, None)
  {
    seq(|chars|, i requires 0 <= i < |chars| => Characteristic(chars[i].uuid, ServiceOf(chars[i]), chars[i].properties, None))
  }

  /** The loop of `connectDevice` that builds the handle map and the record's list. */
  method CollectCharacteristics(chars: seq<FoundChar>) returns (charMap: map<string, CharHandle>, records: seq<Characteristic>)
    ensures charMap == CharMapOf(chars)
    ensures records == CharRecords(chars)
    ensures forall u :: u in charMap <==> exists i :: 0 <= i < |chars| && chars[i].uuid == u
  {
    charMap := map[];
    records := [];
    var i := 0;
    while i < |chars|
      invariant 0 <= i <= |chars|
      invariant charMap == CharMapOf(chars[..i])
      invariant records == CharRecords(chars[..i])
    {
      var c := chars[i];
      assert chars[..i + 1][..i] == chars[..i];
      charMap := charMap[c.uuid := CharHandle(c.uuid, c.properties)];
      records := records + [Characteristic(c.uuid, ServiceOf(c), c.properties, None)];
      i := i + 1;
    }
    assert chars[..|chars|] == chars;
    CharMapKeys(chars);
  }

  // ------------------------------------------------------------ initial state

  /** `{ power: … ?? false, brightness: … ?? 100, colorTemperature: … ?? 50, ...initialState }` */
  function InitialLightState(initial: Record): Record {
    Merge([Power(false), Brightness(100), ColorTemperature(50)], initial)
  }

  /**
   * The state a connect stores: every field read from the device, and the
   * defaults for power, brightness and colour temperature where it said
   * nothing, with those three keys first.
   */
  lemma InitialLightStateProperties(initial: Record)
    requires Distinct(initial)
    ensures Covers(InitialLightState(initial), initial)
    ensures Distinct(InitialLightState(initial))
    ensures Get(initial, KPower).None? ==> Get(InitialLightState(initial), KPower) == Some(Power(false))
    ensures Get(initial, KBrightness).None? ==> Get(InitialLightState(initial), KBrightness) == Some(Brightness(100))
    ensures Get(initial, KColorTemperature).None?
      ==> Get(InitialLightState(initial), KColorTemperature) == Some(ColorTemperature(50))
    ensures Keys(InitialLightState(initial))[..3] == [KPower, KBrightness, KColorTemperature]
  {
    var defaults := [Power(false), Brightness(100), ColorTemperature(50)];
    MergeCovers(defaults, initial);
    MergeDistinct(defaults, initial);
    MergeKeepsOrder(defaults, initial);
    MergeGet(defaults, initial, KPower);
    MergeGet(defaults, initial, KBrightness);
    MergeGet(defaults, initial, KColorTemperature);
  }

  /** A status read gives a full light state: on, its brightness, the default colour temperature, its colour. */
  lemma InitialStateOfStatus(level: int, c: RGB)
    ensures InitialLightState([Power(true), Brightness(level), Color(c)])
      == [Power(true), Brightness(level), ColorTemperature(50), Color(c)]
  {
    var d := [Power(false), Brightness(100), ColorTemperature(50)];
    var init := [Power(true), Brightness(level), Color(c)];
    var d1 := [Power(true), Brightness(100), ColorTemperature(50)];
    var d2 := [Power(true), Brightness(level), ColorTemperature(50)];
    var d3 := [Power(true), Brightness(level), ColorTemperature(50), Color(c)];
    assert Put(d, Power(true)) == d1;
    assert Put(d1[1..], Brightness(level)) == d2[1..];
    assert Put(d1, Brightness(level)) == d2;
    assert Put(d2[2..], Color(c)) == [ColorTemperature(50), Color(c)];
    assert Put(d2[1..], Color(c)) == d3[1..];
    assert Put(d2, Color(c)) == d3;
    assert init[1..] == [Brightness(level), Color(c)];
    assert init[1..][1..] == [Color(c)];
    assert Merge(d2, [Color(c)]) == Merge(d3, []);
    assert Merge(d1, init[1..]) == Merge(d2, [Color(c)]);
  }

  // -------------------------------------------------------------- connecting

  /** How the adapter's connection calls settle. */
  datatype ConnectOutcome = ConnectOutcome(
    connectError: Option<string>,   // `connectAsync` or the discovery rejects with this message
    services: seq<string>,          // the uuids of the services discovered
    chars: seq<FoundChar>,          // the characteristics discovered
    read: ReadOutcome)              // how the initial status read settles

  const NotFoundHint := "). The server likely restarted and lost its state. Please RE-SCAN and try again."

  /**
   * The record a real connect stores: connected, with the characteristics
   * and services discovered; the handle map is stored beside it and
   * `device_connected` is emitted.
   */
  method AttachDiscovered(st: BleState, deviceId: string, services: seq<string>, chars: seq<FoundChar>)
    returns (device: Device)
    requires deviceId in st.devices && st.Valid()
    modifies st`devices, st`characteristics, st`events
    ensures st.Valid()
    ensures device == old(st.devices)[deviceId].(connected := true, characteristics := CharRecords(chars),
      services := WithCharServices(ServiceSet(services), chars))
    ensures NoDuplicates(device.services)
    ensures st.devices == old(st.devices)[deviceId := device]
    ensures st.characteristics == old(st.characteristics)[deviceId := CharMapOf(chars)]
    ensures st.events == old(st.events) + [DeviceConnected(deviceId)]
  {
    var uuids := CollectServices(services, chars);
    var charMap, records := CollectCharacteristics(chars);
    st.characteristics := st.characteristics[deviceId := charMap];
    device := st.devices[deviceId].(connected := true, characteristics := records, services := uuids);
    st.devices := st.devices[deviceId := device];
    st.EmitEvent(DeviceConnected(deviceId));
  }

  /**
   * The initial status read after a connect: when it yields fields, they
   * are persisted and stored, over the defaults, as the record's state and
   * `device_updated` is emitted; otherwise the record is left as it is.
   */
  method ReadInitialState(st: BleState, store: SettingsStore, deviceId: string, read: ReadOutcome)
    returns (device: Device, initial: Record)
    requires deviceId in st.devices && st.Valid()
    modifies st`devices, st`events, store`entries, store`dbWrites, store`lastStateCalls
    ensures st.Valid()
    ensures st.devices == old(st.devices)[deviceId := device]
    ensures device == old(st.devices)[deviceId].(state := device.state)
    ensures initial == old(StatusRead(st, store.GetDeviceSettings(deviceId), deviceId, read))
    ensures initial == StatusRead(st, old(store.GetDeviceSettings(deviceId)), deviceId, read)
    ensures initial != [] ==> (
      device.state == Some(InitialLightState(initial))
      && st.events == old(st.events) + [DeviceUpdated(deviceId)]
      && store.lastStateCalls == old(store.lastStateCalls) + [(deviceId, initial)]
      && var s := old(store.GetDeviceSettings(deviceId));
      store.entries == old(store.entries)[deviceId := s.(lastState := Some(NextLastState(s.lastState, initial)))]
      && store.dbWrites == old(store.dbWrites) + (if Covers(s.lastState.GetOr([]), initial) then 0 else 1))
    ensures initial == [] ==> (
      device == old(st.devices)[deviceId] && st.events == old(st.events)
      && store.lastStateCalls == old(store.lastStateCalls) && store.entries == old(store.entries)
      && store.dbWrites == old(store.dbWrites))
  {
    ghost var s0 := store.GetDeviceSettings(deviceId);
    initial := GetLightState(st, store, deviceId, read);
    device := st.devices[deviceId];
    if initial != [] {
      device := StoreInitialState(st, deviceId, initial, s0, read);
    }
  }

  /**
   * Storing the initial state over the defaults, with one `device_updated`.
   * The status read looks at a record only through its presence, its
   * `connected` flag and its services, so it reads the same afterwards.
   */
  method StoreInitialState(st: BleState, deviceId: string, initial: Record, ghost s: DeviceSetting, ghost read: ReadOutcome)
    returns (device: Device)
    requires deviceId in st.devices && st.Valid()
    modifies st`devices, st`events
    ensures st.Valid()
    ensures device == old(st.devices)[deviceId].(state := Some(InitialLightState(initial)))
    ensures st.devices == old(st.devices)[deviceId := device]
    ensures st.events == old(st.events) + [DeviceUpdated(deviceId)]
    ensures StatusRead(st, s, deviceId, read) == old(StatusRead(st, s, deviceId, read))
  {
    device := st.devices[deviceId].(state := Some(InitialLightState(initial)));
    assert StatusProfile(s, device) == StatusProfile(s, st.devices[deviceId]);
    st.devices := st.devices[deviceId := device];
    st.EmitEvent(DeviceUpdated(deviceId));
  }

  /** A mock connect: the record gets the mock characteristics and `device_connected` is emitted. */
  method ConnectMock(st: BleState, deviceId: string) returns (device: Device)
    requires deviceId in st.devices && st.Valid()
    modifies st`devices, st`events
    ensures st.Valid()
    ensures device == old(st.devices)[deviceId].(connected := true, characteristics := MockCharacteristics())
    ensures st.devices == old(st.devices)[deviceId := device]
    ensures st.events == old(st.events) + [DeviceConnected(deviceId)]
  {
    device := st.devices[deviceId].(connected := true, characteristics := MockCharacteristics());
    st.devices := st.devices[deviceId := device];
    st.EmitEvent(DeviceConnected(deviceId));
  }

  /**
   * A real connect once the adapter has connected: what was discovered is
   * stored (AttachDiscovered) and the initial state read (ReadInitialState).
   */
  method ConnectDiscovered(st: BleState, store: SettingsStore, deviceId: string, outcome: ConnectOutcome)
    returns (device: Device, initial: Record)
    requires deviceId in st.devices && st.Valid()
    modifies st`devices, st`characteristics, st`events
    modifies store`entries, store`dbWrites, store`lastStateCalls
    ensures st.Valid()
    ensures device == AfterConnect(old(st.devices)[deviceId], outcome, initial)
    ensures st.devices == old(st.devices)[deviceId := device]
    ensures NoDuplicates(device.services)
    ensures st.characteristics == old(st.characteristics)[deviceId := CharMapOf(outcome.chars)]
    ensures initial == StatusRead(st, old(store.GetDeviceSettings(deviceId)), deviceId, outcome.read)
    ensures st.events == old(st.events) + [DeviceConnected(deviceId)] + (if initial != [] then [DeviceUpdated(deviceId)] else [])
    ensures store.lastStateCalls == old(store.lastStateCalls) + (if initial != [] then [(deviceId, initial)] else [])
    ensures initial == [] ==> store.entries == old(store.entries) && store.dbWrites == old(store.dbWrites)
    ensures initial != [] ==> (
      var s := old(store.GetDeviceSettings(deviceId));
      store.entries == old(store.entries)[deviceId := s.(lastState := Some(NextLastState(s.lastState, initial)))]
      && store.dbWrites == old(store.dbWrites) + (if Covers(s.lastState.GetOr([]), initial) then 0 else 1))
  {
    ghost var s0 := store.GetDeviceSettings(deviceId);
    var attached := AttachDiscovered(st, deviceId, outcome.services, outcome.chars);
    assert store.GetDeviceSettings(deviceId) == s0;
    device, initial := ReadInitialState(st, store, deviceId, outcome.read);
    UpdateTwice(old(st.devices), deviceId, attached, device);
  }

  /**
   * The record a real connect leaves: connected, with the characteristics
   * and services discovered and, when the initial read yields fields, the
   * state built from them; every other field is kept.
   */
  function AfterConnect(d: Device, outcome: ConnectOutcome, initial: Record): (c: Device)
    ensures c.id == d.id && c.name == d.name && c.rssi == d.rssi && c.lastSeen == d.lastSeen
    ensures c.connected && c.characteristics == CharRecords(outcome.chars)
    ensures c.services == WithCharServices(ServiceSet(outcome.services), outcome.chars)
    ensures initial != [] ==> c.state == Some(InitialLightState(initial))
    ensures initial == [] ==> c.state == d.state
  {
    d.(connected := true, characteristics := CharRecords(outcome.chars),
       services := WithCharServices(ServiceSet(outcome.services), outcome.chars),
       state := if initial != [] then Some(InitialLightState(initial)) else d.state)
  }

  /** A second update of the same key overwrites the first. */
  lemma UpdateTwice<K, V>(m: map<K, V>, k: K, a: V, b: V)
    ensures m[k := a][k := b] == m[k := b]
  {
  }

  /**
   * A real connect of a known peripheral: the scan is stopped, then a
   * rejected connection or discovery is rethrown; otherwise the rest is
   * ConnectDiscovered.
   */
  method ConnectPeripheral(st: BleState, store: SettingsStore, deviceId: string, outcome: ConnectOutcome)
    returns (r: Result<Device>, ghost initial: Record)
    requires deviceId in st.devices && st.Valid()
    modifies st`devices, st`characteristics, st`events, st`scanTimerSet, st`isScanning, st`scanType
    modifies store`entries, store`dbWrites, store`lastStateCalls
    ensures st.Valid()
    ensures !st.isScanning && !st.scanTimerSet
    ensures st.scanType == if old(st.isScanning) then None else old(st.scanType)
    ensures outcome.connectError.Some? ==> (
      r == Err(outcome.connectError.value) && st.devices == old(st.devices)
      && st.characteristics == old(st.characteristics)
      && st.events == old(st.events) + StopEvents(old(st.isScanning), |old(st.devices)|)
      && unchanged(store))
    ensures outcome.connectError.None? ==>
      initial == StatusRead(st, old(store.GetDeviceSettings(deviceId)), deviceId, outcome.read)
    ensures outcome.connectError.None? ==>
      ConnectedByRadio(st, store, deviceId, outcome, initial, r, old(st.devices), old(st.characteristics),
        old(st.events) + StopEvents(old(st.isScanning), |old(st.devices)|),
        old(store.entries), old(store.dbWrites), old(store.lastStateCalls))
    ensures r.Ok? ==> deviceId in st.devices && st.devices[deviceId] == r.value && r.value.connected
  {
    ghost var events0 := st.events + StopEvents(st.isScanning, |st.devices|);
    StopScan(st);
    assert st.events == events0;
    if outcome.connectError.Some? {
      return Err(outcome.connectError.value), [];
    }
    var device;
    device, initial := ConnectDiscovered(st, store, deviceId, outcome);
    r := Ok(device);
  }

  /**
   * What a real connect whose adapter calls resolve leaves behind, given the
   * registry, handle maps, events, settings, database writes and last-state
   * calls before it: the record is AfterConnect of the old one and the only
   * one changed, its handle map is stored, `device_connected` is emitted and
   * then, when the initial read yields fields, `device_updated`; those
   * fields are spread over the stored last state, with one database write
   * when they change it.
   */
  ghost predicate ConnectedByRadio(st: BleState, store: SettingsStore, deviceId: string, outcome: ConnectOutcome,
                                   initial: Record, r: Result<Device>, devices0: map<string, Device>,
                                   chars0: map<string, map<string, CharHandle>>, events0: seq<Event>,
                                   entries0: map<string, DeviceSetting>, dbWrites0: nat,
                                   calls0: seq<(string, Record)>)
    reads st, store
  {
    var s := SettingsFor(entries0, deviceId);
    deviceId in devices0
    && r == Ok(AfterConnect(devices0[deviceId], outcome, initial))
    && st.devices == devices0[deviceId := r.value]
    && st.characteristics == chars0[deviceId := CharMapOf(outcome.chars)]
    && NoDuplicates(r.value.services)
    && st.events == events0 + [DeviceConnected(deviceId)] + (if initial != [] then [DeviceUpdated(deviceId)] else [])
    && store.lastStateCalls == calls0 + (if initial != [] then [(deviceId, initial)] else [])
    && store.entries == (if initial == [] then entries0
                         else entries0[deviceId := s.(lastState := Some(NextLastState(s.lastState, initial)))])
    && store.dbWrites == dbWrites0 + (if initial != [] && !Covers(s.lastState.GetOr([]), initial) then 1 else 0)
  }

  /** The events `stopScan` emits: one `scan_stopped` when a scan was running. */
  function StopEvents(wasScanning: bool, devicesFound: nat): (es: seq<Event>)
    ensures |es| == if wasScanning then 1 else 0
  {
    if wasScanning then [ScanStopped(devicesFound, None)] else []
  }

  /** A connect that goes to the radio: the device is known, not connected, and real, with a peripheral. */
  predicate ByRadio(st: BleState, devices: map<string, Device>, deviceId: string)
    reads st`isMockMode, st`peripherals
  {
    deviceId in devices && !devices[deviceId].connected && !st.isMockMode && deviceId in st.peripherals
  }

  /**
   * `connectDevice` past its first two checks, for a known device that is
   * not connected: a mock one is connected by ConnectMock, a device without
   * a peripheral is an error, and the rest is ConnectPeripheral.
   */
  method ConnectDisconnected(st: BleState, store: SettingsStore, deviceId: string, outcome: ConnectOutcome)
    returns (r: Result<Device>, ghost initial: Record)
    requires deviceId in st.devices && !st.devices[deviceId].connected && st.Valid()
    modifies st`devices, st`characteristics, st`events, st`scanTimerSet, st`isScanning, st`scanType
    modifies store`entries, store`dbWrites, store`lastStateCalls
    ensures st.Valid()
    ensures old(st.isMockMode) ==> (
      r.Ok? && r.value == old(st.devices)[deviceId].(connected := true, characteristics := MockCharacteristics())
      && st.devices == old(st.devices)[deviceId := r.value]
      && st.events == old(st.events) + [DeviceConnected(deviceId)]
      && unchanged(st`characteristics, st`scanTimerSet, st`isScanning, st`scanType)
      && unchanged(store))
    ensures !old(st.isMockMode) && deviceId !in old(st.peripherals) ==> (
      r == Err("Peripheral not found for device: " + deviceId)
      && unchanged(st`devices, st`characteristics, st`events, st`scanTimerSet, st`isScanning, st`scanType)
      && unchanged(store))
    ensures old(ByRadio(st, st.devices, deviceId)) ==> (
      !st.isScanning && !st.scanTimerSet
      && st.scanType == if old(st.isScanning) then None else old(st.scanType))
    ensures (old(ByRadio(st, st.devices, deviceId)) && outcome.connectError.Some?) ==> (
      r == Err(outcome.connectError.value) && st.devices == old(st.devices)
      && st.characteristics == old(st.characteristics)
      && st.events == old(st.events) + StopEvents(old(st.isScanning), |old(st.devices)|)
      && unchanged(store))
    ensures (old(ByRadio(st, st.devices, deviceId)) && outcome.connectError.None?) ==> (
      initial == StatusRead(st, old(store.GetDeviceSettings(deviceId)), deviceId, outcome.read)
      && ConnectedByRadio(st, store, deviceId, outcome, initial, r, old(st.devices), old(st.characteristics),
           old(st.events) + StopEvents(old(st.isScanning), |old(st.devices)|),
           old(store.entries), old(store.dbWrites), old(store.lastStateCalls)))
    ensures r.Ok? ==> deviceId in st.devices && st.devices[deviceId] == r.value && r.value.connected
  {
    if st.isMockMode {
      var device := ConnectMock(st, deviceId);
      return Ok(device), [];
    }
    if deviceId !in st.peripherals {
      return Err("Peripheral not found for device: " + deviceId), [];
    }
    assert ByRadio(st, st.devices, deviceId);
    r, initial := ConnectPeripheral(st, store, deviceId, outcome);
  }

  /**
   * `connectDevice`: an unknown device is an error and a connected one is
   * returned as it is, both with nothing changed; the rest is
   * ConnectDisconnected.
   */
  method ConnectDevice(st: BleState, store: SettingsStore, deviceId: string, outcome: ConnectOutcome)
    returns (r: Result<Device>, ghost initial: Record)
    requires st.Valid()
    modifies st`devices, st`characteristics, st`events, st`scanTimerSet, st`isScanning, st`scanType
    modifies store`entries, store`dbWrites, store`lastStateCalls
    ensures st.Valid()
    ensures deviceId !in old(st.devices) ==> (
      r == Err("Device not found (ID: " + deviceId + NotFoundHint)
      && unchanged(st`devices, st`characteristics, st`events, st`scanTimerSet, st`isScanning, st`scanType)
      && unchanged(store))
    ensures deviceId in old(st.devices) && old(st.devices)[deviceId].connected ==> (
      r == Ok(old(st.devices)[deviceId])
      && unchanged(st`devices, st`characteristics, st`events, st`scanTimerSet, st`isScanning, st`scanType)
      && unchanged(store))
    ensures deviceId in old(st.devices) && !old(st.devices)[deviceId].connected && old(st.isMockMode) ==> (
      r.Ok? && r.value == old(st.devices)[deviceId].(connected := true, characteristics := MockCharacteristics())
      && st.devices == old(st.devices)[deviceId := r.value]
      && st.events == old(st.events) + [DeviceConnected(deviceId)]
      && unchanged(st`characteristics, st`scanTimerSet, st`isScanning, st`scanType)
      && unchanged(store))
    ensures (deviceId in old(st.devices) && !old(st.devices)[deviceId].connected && !old(st.isMockMode)
      && deviceId !in old(st.peripherals)) ==> (
      r == Err("Peripheral not found for device: " + deviceId)
      && unchanged(st`devices, st`characteristics, st`events, st`scanTimerSet, st`isScanning, st`scanType)
      && unchanged(store))
    ensures old(ByRadio(st, st.devices, deviceId)) ==> (
      !st.isScanning && !st.scanTimerSet
      && st.scanType == if old(st.isScanning) then None else old(st.scanType))
    ensures (old(ByRadio(st, st.devices, deviceId)) && outcome.connectError.Some?) ==> (
      r == Err(outcome.connectError.value) && st.devices == old(st.devices)
      && st.characteristics == old(st.characteristics)
      && st.events == old(st.events) + StopEvents(old(st.isScanning), |old(st.devices)|)
      && unchanged(store))
    ensures (old(ByRadio(st, st.devices, deviceId)) && outcome.connectError.None?) ==> (
      initial == StatusRead(st, old(store.GetDeviceSettings(deviceId)), deviceId, outcome.read)
      && ConnectedByRadio(st, store, deviceId, outcome, initial, r, old(st.devices), old(st.characteristics),
           old(st.events) + StopEvents(old(st.isScanning), |old(st.devices)|),
           old(store.entries), old(store.dbWrites), old(store.lastStateCalls)))
    ensures r.Ok? ==> deviceId in st.devices && st.devices[deviceId] == r.value && r.value.connected
  {
    if deviceId !in st.devices {
      return Err("Device not found (ID: " + deviceId + NotFoundHint), [];
    }
    if st.devices[deviceId].connected {
      return Ok(st.devices[deviceId]), [];
    }
    r, initial := ConnectDisconnected(st, store, deviceId, outcome);
  }

  /**
   * The `disconnect` handler a real connect installs: the record is marked
   * disconnected without characteristics, its handle map is dropped, and
   * `device_disconnected` is emitted. Records are never removed, so the
   * device is still known when the handler runs.
   */
  method OnPeripheralDisconnect(st: BleState, deviceId: string)
    requires deviceId in st.devices && st.Valid()
    modifies st`devices, st`characteristics, st`events
    ensures st.Valid()
    ensures st.devices == old(st.devices)[deviceId := old(st.devices)[deviceId].(connected := false, characteristics := [])]
    ensures st.characteristics == old(st.characteristics) - {deviceId}
    ensures st.events == old(st.events) + [DeviceDisconnected(deviceId)]
  {
    st.devices := st.devices[deviceId := st.devices[deviceId].(connected := false, characteristics := [])];
    st.characteristics := st.characteristics - {deviceId};
    st.EmitEvent(DeviceDisconnected(deviceId));
  }

  /**
   * `disconnectDevice`: an unknown device is an error, a disconnected one is
   * left alone; otherwise the record is marked disconnected without
   * characteristics. Only a real disconnect drops the handle map; a
   * failing `disconnectAsync` is only logged.
   */
  method DisconnectDevice(st: BleState, deviceId: string) returns (r: Result<()>)
    requires st.Valid()
    modifies st`devices, st`characteristics, st`events
    ensures st.Valid()
    ensures deviceId !in old(st.devices) ==> (
      r == Err("Device not found: " + deviceId) && st.devices == old(st.devices) && st.events == old(st.events)
      && st.characteristics == old(st.characteristics))
    ensures deviceId in old(st.devices) && !old(st.devices)[deviceId].connected ==> (
      r == Ok(()) && st.devices == old(st.devices) && st.events == old(st.events)
      && st.characteristics == old(st.characteristics))
    ensures deviceId in old(st.devices) && old(st.devices)[deviceId].connected ==> (
      r == Ok(())
      && st.devices == old(st.devices)[deviceId := old(st.devices)[deviceId].(connected := false, characteristics := [])]
      && st.events == old(st.events) + [DeviceDisconnected(deviceId)]
      && st.characteristics == (if st.isMockMode then old(st.characteristics) else old(st.characteristics) - {deviceId}))
    ensures r.Ok? ==> !Connected(st.devices, deviceId)
  {
    if deviceId !in st.devices {
      return Err("Device not found: " + deviceId);
    }
    var device := st.devices[deviceId];
    if !device.connected {
      return Ok(());
    }
    st.devices := st.devices[deviceId := device.(connected := false, characteristics := [])];
    if !st.isMockMode {
      st.characteristics := st.characteristics - {deviceId};
    }
    st.EmitEvent(DeviceDisconnected(deviceId));
    r := Ok(());
  }
}
