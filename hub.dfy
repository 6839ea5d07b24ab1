/**
 * The state reconciler (src/services/hub.ts): every state update goes
 * through `updateDeviceState`, which merges, persists, announces and then
 * pushes the update to the hardware. The hardware commands are returned as
 * a `Dispatch` rather than sent: sending them is `sendLightCommand`
 * (Interaction) and `sendACCommand` (Ac), and the AC command would come
 * straight back here.
 */
module Hub {
  import opened Wrappers
  import opened Types
  import opened State
  import opened Settings
  import opened Ac

  datatype Source = Ui | Hardware | System

  /** The hardware commands an update sends, one per key of the update, in key order. */
  datatype Dispatch =
    | NoSync
    | ToBle(deviceId: string, commands: seq<Command>)   // one `sendLightCommand` each
    | ToAc(deviceId: string, fields: seq<Field>)         // one `sendACCommand` each

  /**
   * The commands `syncToHardware` sends: light commands to a connected BLE
   * device, otherwise AC commands to a connected WiFi device, otherwise none.
   */
  function SyncPlan(devices: map<string, Device>, wifi: map<string, WiFiDevice>, id: string, update: Record)
    : (d: Dispatch)
    ensures d.ToBle? ==> (
      id in devices && devices[id].connected && d.deviceId == id && |d.commands| == |update|
      && forall i :: 0 <= i < |update| ==> d.commands[i] == CommandOf(update[i]))
    ensures d.ToAc? ==> (
      !(id in devices && devices[id].connected) && id in wifi && wifi[id].connected
      && d.deviceId == id && d.fields == update)
    ensures d.NoSync? <==> !(id in devices && devices[id].connected) && !(id in wifi && wifi[id].connected)
  {
    if id in devices && devices[id].connected then ToBle(id, seq(|update|, i requires 0 <= i < |update| => CommandOf(update[i])))
    else if id in wifi && wifi[id].connected then ToAc(id, update)
    else NoSync
  }

  /**
   * The update an AC command asks the hub for is pushed back to the same
   * AC as the same command: `sendACCommand` and `updateDeviceState` call
   * each other without end for a connected WiFi device.
   */
  lemma AcCommandComesBack(devices: map<string, Device>, wifi: map<string, WiFiDevice>, id: string, f: Field)
    requires id !in devices && id in wifi && wifi[id].connected
    ensures SyncPlan(devices, wifi, id, [f]) == ToAc(id, [f])
  {
  }

  /**
   * `syncToHardware(deviceId, update)`: the `for` loops over
   * `Object.entries(update)`, one command per entry.
   */
  method SyncToHardware(st: BleState, store: SettingsStore, ac: AcService, now: int, deviceId: string, update: Record)
    returns (d: Dispatch)
    requires ac.Valid()
    modifies ac
    ensures ac.Valid()
    ensures old(ac.wifiDevices) != map[] ==> ac.wifiDevices == old(ac.wifiDevices) && ac.acStates == old(ac.acStates)
    ensures d == SyncPlan(st.devices, ac.wifiDevices, deviceId, update)
  {
    if deviceId in st.devices && st.devices[deviceId].connected {
      var commands: seq<Command> := [];
      var i := 0;
      while i < |update|
        invariant 0 <= i <= |update| && |commands| == i
        invariant forall j :: 0 <= j < i ==> commands[j] == CommandOf(update[j])
      {
        commands := commands + [CommandOf(update[i])];
        i := i + 1;
      }
      return ToBle(deviceId, commands);
    }
    var wifi := ac.GetWiFiDevices(store, now);
    if deviceId in ac.wifiDevices && ac.wifiDevices[deviceId].connected {
      // `{type: key, value}` of each entry is the entry itself as an AC command
      return ToAc(deviceId, update);
    }
    d := NoSync;
  }

  /**
   * `updateDeviceState(deviceId, newState, source)`: an id that is neither
   * a registry device nor a WiFi device changes nothing. Otherwise a
   * registry device's state becomes `{...state, ...newState}` (a WiFi-only
   * device has no registry record to update), the partial state is
   * persisted whatever the source, one `device_updated` is emitted, and the
   * hardware is synced unless the update came from the hardware.
   */
  method UpdateDeviceState(st: BleState, store: SettingsStore, ac: AcService, now: int,
                           deviceId: string, newState: Record, source: Source)
    returns (d: Dispatch)
    requires st.Valid() && ac.Valid() && Distinct(newState)
    modifies st`devices, st`events, store`entries, store`dbWrites, store`lastStateCalls, ac
    ensures st.Valid() && ac.Valid()
    ensures old(ac.wifiDevices) != map[] ==> ac.wifiDevices == old(ac.wifiDevices) && ac.acStates == old(ac.acStates)
    ensures old(ac.wifiDevices) == map[] ==> ac.wifiDevices == map[MockAcId := MockAc(now)]
    ensures deviceId !in old(st.devices) && deviceId !in ac.wifiDevices ==> (
      d == NoSync && st.devices == old(st.devices) && st.events == old(st.events)
      && store.entries == old(store.entries) && store.dbWrites == old(store.dbWrites)
      && store.lastStateCalls == old(store.lastStateCalls))
    ensures deviceId in old(st.devices) || deviceId in ac.wifiDevices ==> (
      var s := old(store.GetDeviceSettings(deviceId));
      st.events == old(st.events) + [DeviceUpdated(deviceId)]
      && store.entries == old(store.entries)[deviceId := s.(lastState := Some(NextLastState(s.lastState, newState)))]
      && store.dbWrites == old(store.dbWrites) + (if Covers(s.lastState.GetOr([]), newState) then 0 else 1)
      && store.lastStateCalls == old(store.lastStateCalls) + [(deviceId, newState)])
    ensures deviceId in old(st.devices) ==> (
      st.devices == old(st.devices)[deviceId :=
        old(st.devices)[deviceId].(state := Some(Merge(old(st.devices)[deviceId].state.GetOr([]), newState)))])
    ensures deviceId !in old(st.devices) ==> st.devices == old(st.devices)
    ensures source == Hardware ==> d == NoSync
    ensures (deviceId in old(st.devices) || deviceId in ac.wifiDevices) && source != Hardware ==>
      d == SyncPlan(st.devices, ac.wifiDevices, deviceId, newState)
  {
    var bleFound := deviceId in st.devices;
    var wifi := ac.GetWiFiDevices(store, now);
    var wifiFound := deviceId in ac.wifiDevices;
    if !bleFound && !wifiFound {
      return NoSync;
    }
    if bleFound {
      var device := st.devices[deviceId];
      st.devices := st.devices[deviceId := device.(state := Some(Merge(device.state.GetOr([]), newState)))];
    }
    store.UpdateDeviceLastState(deviceId, newState);
    st.EmitEvent(DeviceUpdated(deviceId));
    if source != Hardware {
      d := SyncToHardware(st, store, ac, now, deviceId, newState);
    } else {
      d := NoSync;
    }
  }
}
