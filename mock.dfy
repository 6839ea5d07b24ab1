/** The fixtures used when the hub runs without a Bluetooth adapter (src/services/ble/mock.ts). */
module Mock {
  import opened Wrappers
  import opened Types

  /**
   * `createMockDevices()`, already in the shape the mock scan stores
   * (`{ ...device, characteristics: [] }`); `now` is `Date.now()`.
   */
  function MockDevices(now: int): (ds: seq<Device>)
    ensures |ds| == 3
    ensures forall i, j :: 0 <= i < j < |ds| ==> ds[i].id != ds[j].id
    ensures forall i :: 0 <= i < |ds| ==>
      !ds[i].connected && ds[i].characteristics == [] && ds[i].lastSeen == now
      && ds[i].customName.None? && ds[i].profileId.None? && ds[i].targetChar.None? && ds[i].state.None?
    ensures [ds[0].id, ds[1].id, ds[2].id] == ["mock-bulb-1", "mock-strip-1", "mock-desk-1"]
    ensures "a032" in ds[0].services && ds[1].saved && !ds[0].saved && !ds[2].saved
  {
    [ Device("mock-bulb-1", "Smart RGB Bulb", None, -65, false, ["ffe1", "a032"], now, false,
             None, None, None, []),
      Device("mock-strip-1", "LED Strip Controller", None, -72, false, ["7e00"], now, true,
             None, None, None, []),
      Device("mock-desk-1", "Desk Lamp", None, -58, false, ["cc00"], now, false,
             None, None, None, []) ]
  }

  /** `createMockCharacteristics()`: one writable characteristic, one readable one. */
  function MockCharacteristics(): (cs: seq<Characteristic>)
    ensures |cs| == 2
    ensures "write" in cs[0].properties && cs[0].uuid == "ffe1" && cs[0].value.None?
    ensures "write" !in cs[1].properties && "writeWithoutResponse" !in cs[1].properties
    ensures "read" in cs[1].properties && cs[1].value == Some("0100640032")
    ensures forall i :: 0 <= i < |cs| ==> cs[i].serviceUuid == "ffe0" && "notify" in cs[i].properties
  {
    [ Characteristic("ffe1", "ffe0", ["write", "writeWithoutResponse", "notify"], None),
      Characteristic("ffe2", "ffe0", ["read", "notify"], Some("0100640032")) ]
  }
}
