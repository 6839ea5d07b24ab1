/**
 * The BLE service entry points (src/services/ble/index.ts): the command-log
 * window, pre-populating saved devices, the reconnect loop and
 * initialisation.
 */
module BleService {
  import opened Wrappers
  import opened JsString
  import opened Types
  import opened State
  import opened Settings
  import opened Discovery

  // ------------------------------------------------------------ command log

  const DefaultLogLimit := 50

  /** `xs.slice(start)`: a negative start counts from the end; both are clamped. */
  function SliceFrom<T>(xs: seq<T>, start: int): (r: seq<T>)
    ensures start < 0 ==> r == xs[Clamp(|xs| + start, |xs|)..]
    ensures start >= 0 ==> r == xs[Clamp(start, |xs|)..]
  {
    if start < 0 then xs[Clamp(|xs| + start, |xs|)..] else xs[Clamp(start, |xs|)..]
  }

  /**
   * `getCommandLog(limit)`: the last `limit` entries in their order; since
   * `slice(-0)` is `slice(0)`, a limit of 0 gives the whole log, and a
   * negative limit drops that many entries from the front.
   */
  function GetCommandLog(st: BleState, limit: int): (r: seq<LogEntry>)
    reads st
    ensures |r| <= |st.commandLog|
    ensures limit > 0 ==> |r| == (if limit < |st.commandLog| then limit else |st.commandLog|)
    ensures limit >= 0 ==> r == st.commandLog[|st.commandLog| - |r|..]
    ensures limit == 0 ==> r == st.commandLog
    ensures limit < 0 ==> (
      |r| == (if -limit < |st.commandLog| then |st.commandLog| + limit else 0)
      && r == st.commandLog[|st.commandLog| - |r|..])
  {
    SliceFrom(st.commandLog, -limit)
  }

  /** Appending to the log moves the default window by one entry. */
  lemma GetCommandLogAfterAppend(st: BleState, e: LogEntry, log: seq<LogEntry>)
    requires st.commandLog == log + [e]
    ensures GetCommandLog(st, DefaultLogLimit)[|GetCommandLog(st, DefaultLogLimit)| - 1] == e
    ensures |log| >= DefaultLogLimit ==> GetCommandLog(st, DefaultLogLimit) == log[|log| - DefaultLogLimit + 1..] + [e]
  {
    var r := GetCommandLog(st, DefaultLogLimit);
    assert r == st.commandLog[|st.commandLog| - |r|..];
    if |log| >= DefaultLogLimit {
      assert |r| == DefaultLogLimit;
      assert st.commandLog[|st.commandLog| - DefaultLogLimit..] == log[|log| - DefaultLogLimit + 1..] + [e];
    }
  }

  /** `clearCommandLog()` */
  method ClearCommandLog(st: BleState)
    modifies st`commandLog
    ensures st.commandLog == []
    ensures GetCommandLog(st, DefaultLogLimit) == []
  {
    st.commandLog := [];
  }

  // ------------------------------------------------------- saved devices

  /** `settings.saved || isWifi` */
  predicate Populates(id: string, s: DeviceSetting) {
    s.saved == Some(true) || IsWifiId(id)
  }

  /** The record `populateSavedDevices` stores for a saved or WiFi id. */
  function SavedRecord(id: string, s: DeviceSetting, now: int): (d: Device)
    ensures d.id == id
  {
    var wifi := IsWifiId(id);
    Device(id, OrElse(s.customName, if wifi then "WiFi AC" else "Saved Device"), s.customName, -100, wifi, [],
      now, s.saved.GetOr(false), s.profileId, s.targetChar, s.lastState, [])
  }

  /**
   * A saved record is disconnected unless it is a WiFi id, has no services,
   * a -100 signal, the custom name or a fallback name, and mirrors the settings.
   */
  lemma SavedRecordFields(id: string, s: DeviceSetting, now: int)
    ensures var d := SavedRecord(id, s, now);
      d.rssi == -100 && d.services == [] && d.characteristics == [] && d.lastSeen == now
      && (d.connected <==> IsWifiId(id))
      && (Truthy(s.customName) ==> d.name == s.customName.value)
      && (!Truthy(s.customName) && IsWifiId(id) ==> d.name == "WiFi AC")
      && (!Truthy(s.customName) && !IsWifiId(id) ==> d.name == "Saved Device")
      && Mirrors(d, s) && d.state == s.lastState
  {
  }

  /**
   * The registry after `populateSavedDevices` has met the ids of `entries`:
   * existing records are kept, and each saved or WiFi id without a record gets one.
   */
  function Populated(devices: map<string, Device>, entries: map<string, DeviceSetting>, now: int)
    : (m: map<string, Device>)
    ensures forall id :: id in devices ==> id in m && m[id] == devices[id]
    ensures forall id :: (id in entries && id !in devices && Populates(id, entries[id])
      ==> id in m && m[id] == SavedRecord(id, entries[id], now))
    ensures forall id :: id in m ==> id in devices || (id in entries && Populates(id, entries[id]))
  {
    map id | id in devices.Keys + entries.Keys && (id in devices || Populates(id, entries[id]))
      :: if id in devices then devices[id] else SavedRecord(id, entries[id], now)
  }

  /** Meeting one more id adds its record exactly when it is new, saved or WiFi. */
  lemma PopulatedStep(devices: map<string, Device>, done: map<string, DeviceSetting>, id: string,
                      s: DeviceSetting, now: int)
    requires id !in done
    ensures Populated(devices, done[id := s], now) ==
      var m := Populated(devices, done, now);
      if id !in m && Populates(id, s) then m[id := SavedRecord(id, s, now)] else m
  {
  }

  /** Populating twice adds nothing more. */
  lemma PopulatedIdempotent(devices: map<string, Device>, entries: map<string, DeviceSetting>, now: int, later: int)
    ensures Populated(Populated(devices, entries, now), entries, later) == Populated(devices, entries, now)
  {
  }

  /** `populateSavedDevices()`: the `forEach` over the settings map. */
  method PopulateSavedDevices(st: BleState, store: SettingsStore, now: int)
    requires st.Valid()
    modifies st`devices
    ensures st.Valid()
    ensures st.devices == Populated(old(st.devices), store.entries, now)
  {
    var ids := store.entries.Keys;
    ghost var done: set<string> := {};
    while ids != {}
      invariant ids + done == store.entries.Keys && ids !! done
      invariant st.devices == Populated(old(st.devices), map id | id in done :: store.entries[id], now)
      invariant st.Valid()
      decreases ids
    {
      var id :| id in ids;
      ghost var before := map i | i in done :: store.entries[i];
      assert (map i | i in done + {id} :: store.entries[i]) == before[id := store.entries[id]];
      var settings := store.entries[id];
      PopulatedStep(old(st.devices), before, id, settings, now);
      if id !in st.devices && Populates(id, settings) {
        st.devices := st.devices[id := SavedRecord(id, settings, now)];
      }
      ids := ids - {id};
      done := done + {id};
    }
    assert (map id | id in done :: store.entries[id]) == store.entries;
  }

  // --------------------------------------------------------- reconnect loop

  const InitialAttemptDelayMs := 2000
  const ReconnectIntervalMs := 30 * 1000
  const AutoScanDurationMs := 15000

  /** A timer the loop arms: a one-shot delay or a repeating interval. */
  datatype Timer = Once(delayMs: nat) | Every(intervalMs: nat)

  /** The module-level `reconnectInterval` handle. */
  class ReconnectLoop {
    var intervalSet: bool
    ghost var armed: seq<Timer>

    constructor()
      ensures !intervalSet && armed == []
    {
      intervalSet := false;
      armed := [];
    }

    /**
     * `startAutoReconnectLoop()`: once the interval exists nothing happens;
     * otherwise a first attempt after 2 s and one every 30 s are armed.
     */
    method StartAutoReconnectLoop()
      modifies this
      ensures intervalSet
      ensures old(intervalSet) ==> armed == old(armed)
      ensures !old(intervalSet) ==> armed == old(armed) + [Once(InitialAttemptDelayMs), Every(ReconnectIntervalMs)]
    {
      if intervalSet {
        return;
      }
      armed := armed + [Once(InitialAttemptDelayMs), Every(ReconnectIntervalMs)];
      intervalSet := true;
    }
  }

  /** The ids of saved devices that are not connected. */
  function SavedDisconnected(devices: map<string, Device>): set<string> {
    set id | id in devices && devices[id].saved && !devices[id].connected
  }

  /**
   * `attemptReconnects()`: each saved, disconnected device with a cached
   * peripheral gets a background `connectDevice` (returned in `connects`);
   * a brief auto scan of 15 s is requested iff some such device has no
   * peripheral. Nothing happens when no device is saved and disconnected.
   */
  method AttemptReconnects(st: BleState) returns (connects: set<string>, scanRequested: bool)
    ensures connects == set id | id in SavedDisconnected(st.devices) && id in st.peripherals
    ensures scanRequested <==> exists id :: id in SavedDisconnected(st.devices) && id !in st.peripherals
    ensures SavedDisconnected(st.devices) == {} ==> connects == {} && !scanRequested
  {
    connects := {};
    scanRequested := false;
    var pending := SavedDisconnected(st.devices);
    if pending == {} {
      return;
    }
    var stillNeeded: seq<string> := [];
    ghost var seen: set<string> := {};
    while pending != {}
      invariant pending + seen == SavedDisconnected(st.devices) && pending !! seen
      invariant connects == set id | id in seen && id in st.peripherals
      invariant forall id :: id in stillNeeded <==> id in seen && id !in st.peripherals
      decreases pending
    {
      var id :| id in pending;
      if id in st.peripherals {
        connects := connects + {id};
      } else {
        stillNeeded := stillNeeded + [id];
      }
      pending := pending - {id};
      seen := seen + {id};
    }
    scanRequested := |stillNeeded| != 0;
    if scanRequested {
      assert stillNeeded[0] in stillNeeded;
    }
  }

  // ---------------------------------------------------------- initialisation

  /** What `initialize` learns from its environment. */
  datatype Boot = Boot(
    platform: string,                  // `process.platform`
    useMockEnv: Option<string>,        // `NEXT_PUBLIC_USE_MOCK_BLE`
    nobleState: Option<string>,        // the adapter state once noble loads; None when `require` throws
    settingsFile: Option<map<string, DeviceSetting>>)

  predicate SupportedPlatform(p: string) {
    p == "darwin" || p == "linux" || p == "win32"
  }

  datatype InitResult = InitResult(mockMode: bool, adapterState: string)

  /**
   * `initialize()`: a second call reports the current mode and adapter
   * state and changes nothing. The first loads the settings, pre-populates
   * saved devices and starts the reconnect loop, then selects mock mode on
   * an unsupported platform, when the environment forces it, or when noble
   * cannot be loaded; otherwise it records the loaded adapter and its state.
   */
  method Initialize(st: BleState, store: SettingsStore, loop: ReconnectLoop, boot: Boot, now: int)
    returns (r: InitResult)
    requires st.Valid()
    modifies st`isMockMode, st`nobleLoaded, st`nobleState, st`devices, store`entries, loop
    ensures st.Valid()
    ensures old(st.nobleLoaded || st.isMockMode) ==> (
      r == InitResult(old(st.isMockMode), old(st.nobleState)) && st.devices == old(st.devices)
      && st.isMockMode == old(st.isMockMode) && st.nobleLoaded == old(st.nobleLoaded)
      && st.nobleState == old(st.nobleState)
      && store.entries == old(store.entries) && loop.armed == old(loop.armed))
    ensures !old(st.nobleLoaded || st.isMockMode) ==> (
      store.entries == (if boot.settingsFile.Some? then old(store.entries) + boot.settingsFile.value else old(store.entries))
      && st.devices == Populated(old(st.devices), store.entries, now) && loop.intervalSet
      && (!SupportedPlatform(boot.platform) ==> (r == InitResult(true, "unsupported") && st.isMockMode && !st.nobleLoaded
            && st.nobleState == old(st.nobleState)))
      && (SupportedPlatform(boot.platform) && boot.useMockEnv == Some("true") ==>
            (r == InitResult(true, "unknown") && st.isMockMode && !st.nobleLoaded
            && st.nobleState == old(st.nobleState)))
      && (SupportedPlatform(boot.platform) && boot.useMockEnv != Some("true") && boot.nobleState.Some? ==>
            r == InitResult(false, boot.nobleState.value) && !st.isMockMode && st.nobleLoaded
            && st.nobleState == boot.nobleState.value)
      && (SupportedPlatform(boot.platform) && boot.useMockEnv != Some("true") && boot.nobleState.None? ==>
            (r == InitResult(true, old(st.nobleState)) && st.isMockMode && !st.nobleLoaded
            && st.nobleState == old(st.nobleState))))
    ensures r.mockMode == st.isMockMode
  {
    if st.nobleLoaded || st.isMockMode {
      return InitResult(st.isMockMode, st.nobleState);
    }
    store.LoadSettings(boot.settingsFile);
    PopulateSavedDevices(st, store, now);
    loop.StartAutoReconnectLoop();
    if !SupportedPlatform(boot.platform) {
      st.isMockMode := true;
      return InitResult(true, "unsupported");
    }
    if boot.useMockEnv == Some("true") {
      st.isMockMode := true;
      return InitResult(true, "unknown");
    }
    if boot.nobleState.Some? {
      st.nobleLoaded := true;
      st.nobleState := boot.nobleState.value;
      st.isMockMode := false;
    } else {
      st.isMockMode := true;
    }
    r := InitResult(st.isMockMode, st.nobleState);
  }
}
