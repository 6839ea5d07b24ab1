/**
 * The process-wide registry of the Bluetooth service (src/services/ble/state.ts,
 * src/services/ble/types.ts): device records, cached adapter peripherals and
 * characteristic handles, the command log and the scan flags. Emitted events
 * are recorded in a ghost sequence.
 */
module State {
  import opened Wrappers
  import opened Hex
  import opened Types

  /** `'manual' | 'auto'` */
  datatype ScanKind = Manual | Auto

  /** `DeviceEvent`: its type and the part of its payload the hub's contracts talk about. */
  datatype Event =
    | DeviceDiscovered(id: string)
    | DeviceConnected(id: string)
    | DeviceDisconnected(id: string)
    | DeviceUpdated(id: string)
    | ScanStarted(durationMs: int, kind: ScanKind)
    | ScanStopped(devicesFound: nat, error: Option<string>)

  /** One `writeAsync(buffer, withoutResponse)` handed to the adapter. */
  datatype RadioWrite = RadioWrite(deviceId: string, uuid: string, bytes: seq<byte>, withoutResponse: bool)

  class BleState {
    var nobleLoaded: bool                 // `state.noble !== null`
    var isMockMode: bool
    var nobleState: string
    var devices: map<string, Device>
    var peripherals: map<string, Peripheral>
    var characteristics: map<string, map<string, CharHandle>>
    var commandLog: seq<LogEntry>
    var isScanning: bool
    var scanType: Option<ScanKind>
    var scanTimerSet: bool                // `state.scanTimeout !== null`
    ghost var events: seq<Event>
    ghost var radioWrites: seq<RadioWrite>
    ghost var listeners: seq<(string, string)>   // `data` handlers installed: (device id, characteristic uuid)

    /** Every device record is stored under its own id. */
    ghost predicate Valid()
      reads this`devices
    {
      forall id :: id in devices ==> devices[id].id == id
    }

    /** The initial value of the singleton. */
    constructor()
      ensures !nobleLoaded && !isMockMode && nobleState == "unknown"
      ensures devices == map[] && peripherals == map[] && characteristics == map[]
      ensures commandLog == [] && !isScanning && scanType == None && !scanTimerSet
      ensures events == [] && radioWrites == [] && listeners == []
      ensures Valid()
    {
      nobleLoaded := false;
      isMockMode := false;
      nobleState := "unknown";
      devices := map[];
      peripherals := map[];
      characteristics := map[];
      commandLog := [];
      isScanning := false;
      scanType := None;
      scanTimerSet := false;
      events := [];
      radioWrites := [];
      listeners := [];
    }

    /** `emitEvent`: exactly one event is delivered, and nothing else changes. */
    method EmitEvent(e: Event)
      modifies this`events
      ensures events == old(events) + [e]
    {
      events := events + [e];
    }

    /** `isInMockMode()` */
    function IsInMockMode(): bool
      reads this
    {
      isMockMode
    }

    /** `getAdapterState()` */
    function GetAdapterState(): string
      reads this
    {
      nobleState
    }

    /** `getScanStatus()` */
    function GetScanStatus(): bool
      reads this
    {
      isScanning
    }
  }

  /** The global object that holds the singleton across module reloads. */
  class GlobalForBle {
    var bleState: BleState?

    /** The state is created only when none exists yet; an existing one is kept as it is. */
    method EnsureState() returns (s: BleState)
      modifies this
      ensures old(bleState) != null ==> s == old(bleState) && bleState == s
      ensures old(bleState) == null ==> (
        fresh(s) && bleState == s
        && s.devices == map[] && s.commandLog == [] && !s.isScanning && s.scanType == None
        && !s.isMockMode && s.nobleState == "unknown" && s.events == [])
    {
      if bleState == null {
        bleState := new BleState();
      }
      s := bleState;
    }
  }
}
