# Smart-home device hub, modelled in Dafny

This project models, and proves properties of, the server side of a small smart-home hub:

- **Bluetooth light service** (`src/services/ble/*`):
  - the frame codecs for the iLink (`55aa`), Triones and Magic Home light protocols, and the iLink status decoder;
  - command dispatch from a profile catalog to a characteristic write;
  - characteristic reads, notification subscriptions and the command log;
  - the registry of devices, adapter peripherals and characteristic handles;
  - discovery and scanning, connect and disconnect, the saved-device reconnect loop and service start-up;
  - the per-device settings store, with its last-state persistence.
- **Reconciler** (`src/services/hub.ts`): it merges state updates, persists them, announces them and pushes them to the hardware.
- **WiFi air conditioner** (`src/services/ac.ts`): an in-memory mock device.
- **Web request rules**:
  - the route-protection classifier (`src/proxy.ts`);
  - the status-code ladders of the `validate-credentials` and `register` API routes.

## Modelling choices

One Dafny module stands for each source file:

| source file | module |
|---|---|
| encoding.ts | `Encoding` |
| interaction.ts | `Interaction` |
| profiles | `Profiles` |
| state.ts with ble/types.ts | `State` |
| settings.ts | `Settings` |
| discovery.ts | `Discovery` |
| connection.ts | `Connection` |
| ble/index.ts | `BleService` |
| hub.ts | `Hub` |
| ac.ts | `Ac` |
| proxy.ts | `Proxy` |
| the validate-credentials route | `ValidateCredentials` |
| the register route | `Register` |

Helper modules:

- `Wrappers`: Option and Result.
- `JsString`: the JavaScript string built-ins the code uses.
- `Hex`: `toString(16)`, `padStart`, `parseInt` and `Buffer` hex conversion.
- `Types`: the entities of `src/types/index.ts`.
- `Mock`: the fixtures.
- `ApiResponse`: JSON responses.

The state the source mutates is modelled by classes:

- The `state.ts` singleton is the class `State.BleState`. Its maps and flags are fields; the events it emits, the adapter writes and the installed notification handlers are ghost sequences.
- The settings map is `Settings.SettingsStore`. Its file and database writes are ghost counters, and its last-state calls are a ghost log.
- The maps of `ac.ts` are fields of `Ac.AcService`.
- The cookies `setAll` fills in place are a field of `Proxy.ProxyResponse`.

Methods update these fields under `modifies` clauses. The loops of the source are `while` loops with invariants, each proved against a function that specifies it.

Other choices:

- **Partial states.** A partial `LightState`/`ACState` is a `Types.Record`: a sequence of fields with distinct keys, because JavaScript objects keep insertion order. The spread `{...a, ...b}` is `Types.Merge`.
- **External results as parameters.** Adapter (noble), database and Supabase results are parameters of the operations. Examples are `ReadOutcome`, `ConnectOutcome`, `ScanOutcome`, `Lookup`, `Creation` and the session flag.
- **Time and ids.** Timestamps (`now`) and log-entry ids are parameters.
- **Plain getters.** `isInMockMode`, `getAdapterState` and `getScanStatus` are the reading functions `State.BleState.IsInMockMode`, `GetAdapterState` and `GetScanStatus`, which cannot change anything.
- **Fire-and-forget calls are returned, not run.**
  - The background `connectDevice(...).catch` calls of discovery, the mock scan and the reconnect loop come back as the ids to connect.
  - The scan the reconnect loop starts comes back as a flag.
  - The early `stopScan` of an auto scan comes back as a flag.
  - The hardware commands of the reconciler come back as a `Hub.Dispatch`.
  - The hub update that `sendACCommand` requests comes back as an out-parameter.

  This breaks the `sendACCommand` ↔ `updateDeviceState` cycle, which has no end for a connected WiFi device (`Hub.AcCommandComesBack`).
- **Brightness arithmetic without floats.** Brightness floats are replaced by the integer formulas they equal on integers:
  - `floor(raw / 2.55)` is `raw * 20 / 51`;
  - `floor(b / 100 * 255)` is `b * 51 / 20`;
  - `min(255, floor(v * 2.55))` is `v * 51 / 20`, except at `v == 100`, where the double product is just below 255 and gives 254.
- **`updateDeviceLastState`.** Its code is not part of the settings file. It is modelled after its tests (`src/services/ble/persistence.test.ts:32-41, 100-111`): it merges into the stored last state, and it writes to the database only when a field changes.

Where the source is wrong, the model contains both the code as written and the corrected definition; see "## Findings". The rest of the model uses the corrected definition.

## Model

| member | source | states |
|---|---|---|
| Encoding.SumBytesAppend | src/services/ble/encoding.ts:11-12 | the loop's byte sum splits over a concatenation |
| Encoding.ILinkChecksum | src/services/ble/encoding.ts:14 | the checksum is a byte, and adding it to the sum gives 0 mod 256 |
| Encoding.ChecksumCancels | src/services/ble/encoding.ts:14 | sum + checksum ≡ 0 (mod 256), for every sum |
| Encoding.HexValuePair | src/services/ble/encoding.ts:8-9 | `parseInt` of two hex digits is a byte |
| Encoding.CidHi | src/services/ble/encoding.ts:8 | the first cid byte is the value of the cid's first two digits |
| Encoding.CidLo | src/services/ble/encoding.ts:9 | the second cid byte is the value of the cid's digits 2..4 |
| Encoding.EncodeILinkCommand | src/services/ble/encoding.ts:4-19 | the summing loop returns exactly the frame `55aa ++ len ++ cid ++ data ++ checksum`: its invariant keeps the running sum equal to the byte sum of the prefix read so far |
| Encoding.ILinkBytesChecksum | src/services/ble/encoding.ts:11-14 | every frame laid out this way passes the receiver's test: the bytes after the header sum to 0 mod 256 |
| Encoding.ILinkFrameBytes | src/services/ble/encoding.ts:5-18 | for a valid cid and canonical data (whole lower-case bytes, at most 255), the frame decodes to `55 aa len cidHi cidLo data checksum`, and that byte sum after the header is 0 mod 256 |
| Encoding.FrameHex | src/services/ble/encoding.ts:15-18 | the frame text is the hex of its bytes, part by part |
| Encoding.HeaderHex | src/services/ble/encoding.ts:5-15 | `55aa` plus the padded length are the hex of the header bytes and the length byte |
| Encoding.EncodeHexOfCid | src/services/ble/encoding.ts:8-18 | a lower-case cid is the hex of its two parsed bytes |
| Encoding.ILinkVectors | src/components/lab/LabByteSweep.tsx:13-21 | power on/off, red and white presets: `55aa01080501f1`, `55aa01080500f2`, `55aa030802ff0000f4`, `55aa010808f8f7` |
| Encoding.PowerOnVector | src/components/lab/LabByteSweep.tsx:13 | cid 0805, data 01 gives `55aa01080501f1` |
| Encoding.PowerOffVector | src/components/lab/LabByteSweep.tsx:14 | cid 0805, data 00 gives `55aa01080500f2` |
| Encoding.WhiteHighVector | src/components/lab/LabByteSweep.tsx:21 | cid 0808, data f8 gives `55aa010808f8f7` |
| Encoding.FanSpeed1Vector | src/components/lab/LabByteSweep.tsx:15 | cid 0501, data 01 gives `55aa01050101f8` |
| Encoding.FanSpeed3Vector | src/components/lab/LabByteSweep.tsx:16 | cid 0501, data 03 gives `55aa01050103f6` |
| Encoding.FanOffVector | src/components/lab/LabByteSweep.tsx:17 | cid 0501, data 00 gives `55aa01050100f9` |
| Encoding.ColorVector | src/components/lab/LabByteSweep.tsx:18 | cid 0802, data ff0000 gives `55aa030802ff0000f4` |
| Encoding.ThreeByteVector | src/services/ble/encoding.ts:7-18 | the frame of a three-byte payload, with its checksum written out |
| Encoding.OneByteVector | src/services/ble/encoding.ts:7-18 | the frame of a one-byte payload, with its checksum written out |
| Encoding.EncodeTriones | src/services/ble/encoding.ts:21-30 | power gives `cc2333`/`cc2433`; colour gives `56` ++ rr ++ gg ++ bb ++ `00f0aa`; every other command gives `''` |
| Encoding.TrionesPowerVector | src/services/ble/encoding.ts:22-24 | power on is `cc2333`, off is `cc2433`: the bytes `cc 23 33` and `cc 24 33` |
| Encoding.MagicHomePowerVector | src/services/ble/encoding.ts:33-35 | power on is `7e0404f00001ff00ef`, off is `7e0404000000ff00ef` |
| Encoding.MagicBrightnessByte | src/services/ble/encoding.ts:44-45 | the level clamped to [0, 100] and scaled to 0..255: 0 below 0, 255 from 100 up |
| Encoding.EncodeMagicHome | src/services/ble/encoding.ts:32-49 | power gives the two fixed frames; colour gives `7e070503` ++ rr ++ gg ++ bb ++ `10ef`; brightness gives `7e0401` ++ byte ++ `000000ef`; colour temperature and raw give `''` |
| Encoding.ColorBytes | src/services/ble/encoding.ts:27-40 | channels of at most 255 print as six hex digits that decode back to the channels |
| Encoding.ColorHex | src/services/ble/encoding.ts:27-40 | the printed channels are six lower-case hex characters |
| Encoding.TrionesColorBytes | src/services/ble/encoding.ts:27 | a Triones colour frame is the bytes `56 r g b 00 f0 aa` |
| Encoding.MagicHomeColorBytes | src/services/ble/encoding.ts:38-41 | a Magic Home colour frame is the bytes `7e 07 05 03 r g b 10 ef` |
| Encoding.MagicHomeBrightnessBytes | src/services/ble/encoding.ts:43-46 | a Magic Home brightness frame is the bytes `7e 04 01 byte 00 00 00 ef` |
| Encoding.WideChannelWidensFrame | src/services/ble/encoding.ts:27-41 | a channel above 255 is not truncated; the frame only becomes longer than the two-digit layout |
| Hex.ToHex | src/services/ble/encoding.ts:15-16 | `n.toString(16)` gives lower-case hex digits, with no leading zero |
| Hex.HexValueToHex | src/services/ble/encoding.ts:8-15 | `parseInt(n.toString(16), 16) == n` |
| Hex.ToHexLength | src/services/ble/encoding.ts:15-16 | one digit below 16, at most two below 256, more from 256 up |
| Hex.PadStart2 | src/services/ble/encoding.ts:15-16 | `padStart(2, '0')` widens to two characters and never truncates |
| Hex.PadStart2Shape | src/services/ble/encoding.ts:15-16 | the padded text ends with the original and has only zeros before it |
| Hex.Hex2 | src/services/ble/encoding.ts:15-27 | two characters exactly when the number is below 256 |
| Hex.Hex2Byte | src/services/ble/encoding.ts:15-27 | a byte prints as two lower-case digits that parse back to it |
| Hex.Hex2Wide | src/services/ble/encoding.ts:27 | from 256 up, padding does nothing and the text is wider than two characters |
| Hex.ToHexSigned | src/services/ble/interaction.ts:143-144 | a negative number prints as a minus sign and its magnitude's digits |
| Hex.Hex2Signed | src/services/ble/interaction.ts:144 | padding a negative number's text keeps its minus sign |
| Hex.DecodeHex | src/services/ble/encoding.ts:6 | `Buffer.from(hex, 'hex')` gives at most one byte per pair of characters |
| Hex.EncodeHex | src/services/ble/interaction.ts:323 | `toString('hex')` gives two lower-case digits per byte |
| Hex.DecodeEncode | src/services/ble/encoding.ts:6 | decoding undoes encoding |
| Hex.EncodeDecode | src/services/ble/encoding.ts:6 | encoding undoes decoding on lower-case text of even length |
| Hex.DecodeHexLength | src/services/ble/encoding.ts:6-7 | lower-case text of even length decodes to one byte per pair: this is `len` |
| Interaction.StatusBrightness | src/services/ble/interaction.ts:32 | `floor(raw / 2.55)` is at most 100, and 100 exactly at 255 |
| Interaction.StatusLevel | src/services/ble/interaction.ts:32-36 | `brightness \|\| 100`: between 1 and 100, and 100 when the raw byte reads as 0 |
| Interaction.PairAt | src/services/ble/interaction.ts:28-31 | a pair of hex characters at an offset, parsed |
| Interaction.ParseILinkStatus | src/services/ble/interaction.ts:8-51 | `{}` unless the text starts with `55aa`, its cid is 8815 or 8814 and its payload has 8 characters; otherwise power on, brightness from the fourth byte and colour from the first three |
| Interaction.ParseStatusFrame | src/services/ble/interaction.ts:16-38 | a status frame is read field by field from its payload, whatever its length byte and checksum say |
| Interaction.PairOfHex2 | src/services/ble/interaction.ts:28-31 | two printed digits of a byte parse back to the byte |
| Interaction.PairsOfEncoded | src/services/ble/interaction.ts:28-31 | four bytes printed as hex are read back one by one |
| Interaction.ILinkFrameShape | src/services/ble/encoding.ts:15-18 | a frame of canonical data is `55aa`, two length digits, the cid, the data and two checksum digits |
| Interaction.StatusRoundTrip | src/services/ble/interaction.ts:8-51 | a status frame encoded by `encodeILinkCommand` from colour and brightness bytes parses back to those colour bytes and that brightness |
| Interaction.MockReadHasNoStatus | src/services/ble/interaction.ts:295 | the mock read value `0100640032` does not parse to any status |
| Interaction.ResolveProfile | src/services/ble/interaction.ts:123-131 | the configured profile, else `ilink` when a032 occurs in a service or in a characteristic's service, else `generic`; an unknown id falls back to the last catalog entry |
| Interaction.StatusProfile | src/services/ble/interaction.ts:67-76 | the same order, but only an advertised service spelled exactly `a032` counts; an unknown id or a profile without a status characteristic gives none |
| Interaction.HeuristicsDiffer | src/services/ble/interaction.ts:68 | a device that advertises `0000a032-…` is driven as iLink, but its status is never read |
| Interaction.ILinkBrightnessByte | src/services/ble/interaction.ts:143 | `min(255, floor(v * 2.55))` on integers: equal to `v * 51 / 20` except 254 at 100; 255 from 101 up; negative below 0 |
| Interaction.RawBrightness | src/services/ble/interaction.ts:169 | `min(100, max(0, v))` |
| Interaction.LightFrame | src/services/ble/interaction.ts:136-174 | the frame per encoding: iLink power/brightness/colour on cids 0805/0801/0802, the Triones and Magic Home encoders, `01`/`00` and `02` ++ level for raw; `''` for any other pair |
| Interaction.RawCommandHasNoFrame | src/services/ble/interaction.ts:136-179 | a `raw` command gives no frame under any encoding |
| Interaction.ILinkCommandBytes | src/services/ble/interaction.ts:137-151 | an iLink command frame, as bytes, passes the checksum test |
| Interaction.ILinkPowerFrame | src/services/ble/interaction.ts:140 | the power frames are the bytes `55 aa 01 08 05 01/00 cs` with a valid checksum |
| Interaction.ILinkBrightnessFrame | src/services/ble/interaction.ts:143-144 | for 0 ≤ v ≤ 100, one data byte holding the scaled level |
| Interaction.ILinkColorFrame | src/services/ble/interaction.ts:147-149 | for byte channels, three data bytes r, g, b |
| Interaction.RawFrames | src/services/ble/interaction.ts:164-172 | `01`/`00` for power; `02` then the clamped level as two digits for brightness |
| Interaction.RawPowerFrames | src/services/ble/interaction.ts:165-166 | the raw power frames decode to the single byte 1 or 0 |
| Interaction.FirstWritable | src/services/ble/interaction.ts:182-184 | the first characteristic with `write` or `writeWithoutResponse`, or none |
| Interaction.TargetChar | src/services/ble/interaction.ts:181-186 | the configured characteristic, else the profile's; every catalog profile names one, so `ffe1` and the first-writable fallback are never reached |
| Interaction.StateUpdateFor | src/services/ble/interaction.ts:190-194 | exactly the commanded field, and nothing for a raw command |
| Interaction.LookupForWrite | src/services/ble/interaction.ts:247-248 | the normalised key, then the lower-case uuid, then the uuid as given |
| Interaction.LookupForRead | src/services/ble/interaction.ts:304-305 | the key without hyphen stripping, then the uuid as given |
| Interaction.CanonicalKeys | src/services/ble/interaction.ts:247 | normalising leaves a lower-case hex key unchanged |
| Interaction.PrefixedKey | src/services/ble/interaction.ts:247 | `0xFFE1` reaches the map key `ffe1` on both paths |
| Interaction.HyphenatedKey | src/services/ble/interaction.ts:247 | `FF-E1` reaches `ffe1` on the write path |
| Interaction.CharsOf | src/services/ble/interaction.ts:240 | the characteristic map of a device, if any |
| Interaction.WriteHandle | src/services/ble/interaction.ts:240-255 | a real write's handle: present only when the map and the characteristic exist |
| Interaction.WriteReport | src/services/ble/interaction.ts:220-274 | the log entry's success and response: mock always succeeds with `OK (mock)`; a real write succeeds exactly when the characteristic is found and `writeAsync` resolves; otherwise the error's message, or `Write failed` |
| Interaction.RadioWritesFor | src/services/ble/interaction.ts:257-261 | exactly one adapter write, of the value with white space removed and decoded as hex, when a real write finds its characteristic; none otherwise |
| Interaction.WriteCharacteristic | src/services/ble/interaction.ts:206-275 | unknown or disconnected device: an error, nothing logged; otherwise exactly one log entry whose success is the result, and one `device_updated` exactly on success |
| Interaction.ReadHandle | src/services/ble/interaction.ts:298-312 | a read's handle: present only when the map and the characteristic exist |
| Interaction.ReadCharacteristic | src/services/ble/interaction.ts:280-333 | errors for an unknown or disconnected device; `0100640032` in mock mode; otherwise the bytes as hex, or null for no map, no characteristic or a failed read |
| Interaction.SubscribeToNotifications | src/services/ble/interaction.ts:338-386 | errors for an unknown or disconnected device; true in mock mode; false without a map, without the characteristic, or when it neither notifies nor indicates; otherwise one handler is installed, and the result is whether `subscribeAsync` resolves |
| Interaction.FindLast | src/services/ble/interaction.ts:374 | `findLast`: the last index that satisfies the predicate, or none when none does |
| Interaction.NotificationCrossTalk | src/services/ble/interaction.ts:374 | as written, a notification from one lamp selects another lamp's `a040` entry; the intended filter selects none |
| Interaction.NotificationStaysOnDevice | src/services/ble/interaction.ts:374 | with the intended filter the selected entry belongs to the notifying device and is `a044` or `a040` |
| Interaction.OnNotification | src/services/ble/interaction.ts:365-378 | with the intended filter (see "## Findings"): one `device_updated`; the response of the device's own last `a044`/`a040` entry becomes the hex; no other entry and no other device's entry changes |
| Interaction.StatusRead | src/services/ble/interaction.ts:56-106 | fields only for a real, connected device whose status profile is iLink and whose status read gives a status frame; every other path gives `{}` |
| Interaction.StatusOfRead | src/services/ble/interaction.ts:83-97 | an empty or failed read, or a profile that is not iLink, gives `{}`; otherwise the parsed frame, whose three fields are on, a brightness 1..100 and a colour |
| Interaction.MockModeHasNoState | src/services/ble/interaction.ts:88-95 | in mock mode no status is ever found |
| Interaction.StatusReadOfFrame | src/services/ble/interaction.ts:56-95 | a status frame from `a042` of a real iLink lamp gives power on, its brightness and its colour |
| Interaction.StatusReadOfBytes | src/services/ble/interaction.ts:67-94 | with the iLink profile configured, the status is whatever `a042` returns, parsed |
| Interaction.IlinkStatusProfile | src/services/ble/interaction.ts:67-76 | a setting naming `ilink` reads its status from `a042` as an iLink frame |
| Interaction.StatusCharRead | src/services/ble/interaction.ts:298-325 | reading `a042` from a connected device that has it gives the bytes as hex |
| Interaction.FrameSurvivesAdapter | src/services/ble/encoding.ts:18 | a canonical iLink frame comes back unchanged through bytes and hex |
| Interaction.GetLightState | src/services/ble/interaction.ts:56-106 | the result is the status read; it is persisted as the last state exactly when it has fields, with one database write when that changes the stored last state |
| Interaction.BrightnessReadBack | src/services/ble/interaction.ts:32-36 | a level written by the iLink encoder reads back at most one percent low; levels 0 and 1 read back as 100 |
| Interaction.EncodeLightCommand | src/services/ble/interaction.ts:133-174 | the switch builds exactly the frame of its encoding |
| Interaction.SendLightCommand | src/services/ble/interaction.ts:111-201 | an unknown device or a command with no frame gives false and writes nothing; otherwise the frame goes to the target characteristic; after a successful write exactly the commanded field is spread over the stored last state, with one database write when that changes it; after a failed write nothing is persisted |
| Profiles.Catalog | src/profiles/index.ts:3-35 | four profiles with distinct ids, `ilink`, `triones`, `magic-home`, `generic` in order, each with a non-empty target characteristic |
| Profiles.Fallback | src/profiles/index.ts:28-34 | the last entry is `generic`: raw encoding, no status characteristic |
| Profiles.FindIn | src/profiles/index.ts:3 | `find`: the first profile with the id, or none when no profile has it |
| Profiles.Find | src/services/ble/interaction.ts:69 | a catalog lookup by id |
| Profiles.FindOrFallback | src/services/ble/interaction.ts:131 | the profile with the id, else the last catalog entry |
| Profiles.CatalogEntries | src/profiles/index.ts:4-34 | `ilink` writes `a040` and reads `a042` with the 55aa encoding; `triones` and `magic-home` use `ffe1` for both |
| Mock.MockDevices | src/services/ble/mock.ts:7-37 | the three fixtures, their ids, names, signals, services and saved flags, with no characteristics |
| Mock.MockCharacteristics | src/services/ble/mock.ts:42-57 | one writable `ffe1` and one readable `ffe2` with value `0100640032` |
| State.BleState.constructor | src/services/ble/state.ts:9-21 | empty maps and log, no scan, no scan type, no mock mode, adapter state `unknown`, no events |
| State.BleState.EmitEvent | src/services/ble/state.ts:30-37 | exactly one event is appended, and nothing else changes |
| State.GlobalForBle.EnsureState | src/services/ble/state.ts:6-24 | the state is created only when none exists; an existing one is kept |
| Settings.MergeSettingKeys | src/services/ble/settings.ts:59-62 | the spread: given keys overwrite, the other keys and the last state are kept |
| Settings.MergeSettingCompose | src/services/ble/settings.ts:60-61 | two patches in a row act as one patch in which the later keys win |
| Settings.PatchIdempotent | src/services/ble/settings.ts:60-77 | applying a patch twice is the same as applying it once, in the store and on the device |
| Settings.ApplyPatchMirrors | src/services/ble/settings.ts:66-77 | copying the given keys onto the device keeps it in step with the store; `customName` also renames; nothing else changes |
| Settings.ToggleTwice | src/services/ble/settings.ts:43-47 | a toggle flips the flag (absent counts as false); two toggles restore it; the device mirrors the toggle |
| Settings.NextLastStateProperties | src/services/ble/persistence.test.ts:32-41 | after an update the last state holds every field of the partial state; the same update again changes nothing; fields that are not updated keep their stored value |
| Settings.SettingsFor | src/services/ble/settings.ts:80-82 | the stored record, or `{}` |
| Settings.SettingsStore.constructor | src/services/ble/settings.ts:7 | an empty map, with no writes |
| Settings.SettingsStore.GetDeviceSettings | src/services/ble/settings.ts:80-82 | the stored record, or `{}` for an unknown id |
| Settings.SettingsStore.LoadSettings | src/services/ble/settings.ts:24-37 | each entry of the file replaces the one in memory; a missing or unreadable file changes nothing |
| Settings.SettingsStore.ToggleSaveDevice | src/services/ble/settings.ts:43-57 | the stored flag flips to the returned value; one file save; a known device mirrors it and one `device_updated` is emitted, otherwise no event; the registry stays well formed |
| Settings.SettingsStore.SetDeviceSettings | src/services/ble/settings.ts:59-78 | the store gets `{...existing, ...patch}`; one file save, unconditionally; a known device gets the given keys and one `device_updated`, otherwise no event; the registry stays well formed |
| Settings.SettingsStore.UpdateDeviceLastState | src/services/ble/persistence.test.ts:100-111 | the partial state is spread over the stored last state; one database write exactly when some field changes; the call is logged |
| Types.Get | src/services/hub.ts:30 | the field under a key, if any |
| Types.Put | src/services/hub.ts:30 | a key keeps its position; a new key goes to the end |
| Types.GetPut | src/services/hub.ts:30 | reading after a write sees the written field and no other change |
| Types.MergeGet | src/services/hub.ts:30 | after `{...a, ...b}`, `b` wins where it has the key, and `a` is read elsewhere |
| Types.MergeDistinct | src/services/hub.ts:30 | a spread of distinct-key objects has distinct keys |
| Types.MergeKeepsOrder | src/services/hub.ts:30 | a spread keeps the keys of `a` first, in their order |
| Types.MergeCovers | src/services/hub.ts:30 | every field of `b` can be read back after the spread |
| Types.MergeCovered | src/services/ble/persistence.test.ts:100-111 | spreading fields already stored changes nothing |
| Types.CommandOf | src/services/hub.ts:66-70 | `{type: key, value}`: each state key becomes the command of the same type, never `raw` |
| Types.OrElse | src/services/ble/discovery.ts:19 | `a \|\| b` on an optional string: a present, non-empty `a`, else `b` |
| JsString.Substring | src/services/ble/interaction.ts:16-17 | `substring` with clamped ends is the slice when the ends are in range |
| JsString.ToLower | src/services/ble/interaction.ts:123 | `toLowerCase` character by character |
| JsString.RemoveAll | src/services/ble/connection.ts:72 | `replace(/-/g, '')` removes every hyphen |
| JsString.RemoveFirst | src/services/ble/interaction.ts:247 | `replace('0x', '')` removes only the first occurrence |
| JsString.Split | src/proxy.ts:39 | `split`: pieces without the separator |
| JsString.JoinSplit | src/proxy.ts:39 | joining the pieces gives the string back |
| JsString.NonEmpty | src/proxy.ts:39 | `filter(Boolean)`: the non-empty pieces, in order |
| JsString.BeforeFirst | src/app/api/auth/register/route.ts:45 | `split('@')[0]`: the text before the first `@` |
| JsString.StripSpaces | src/services/ble/interaction.ts:258 | `replace(/\s/g, '')` leaves no white space, and text without any unchanged |
| JsString.Utf16Length | src/app/api/auth/register/route.ts:17 | `.length`: at least the character count and at most twice it, equal to it when no character lies outside the Basic Multilingual Plane |
| JsString.AstralLength | src/app/api/auth/register/route.ts:17 | four emoji are four characters but eight code units |
| Discovery.DiscoveredName | src/services/ble/discovery.ts:19-23 | the custom name, else the advertised name, else `Unknown Device`, which becomes `ilink? (Service A032)` when a service mentions a032; never empty |
| Discovery.DiscoveredRssi | src/services/ble/discovery.ts:28 | `rssi \|\| -100`: an absent or zero reading becomes -100 |
| Discovery.NewRecord | src/services/ble/discovery.ts:12-35 | a new record: id, name, signal, connected exactly when the peripheral is connected, advertised services, no characteristics, and the stored profile, target, saved flag and last state |
| Discovery.Refreshed | src/services/ble/discovery.ts:50-55 | a known record gets only a new signal and time, and the new name unless it is `Unknown Device` |
| Discovery.DisconnectedFailsWrittenGuard | src/services/ble/discovery.ts:73 | a `disconnected` peripheral fails the written guard and passes the intended one |
| Discovery.GuardOnAdapterStates | src/services/ble/discovery.ts:73 | the intended guard lets every adapter state but `connected` through |
| Discovery.HandleDiscover | src/services/ble/discovery.ts:40-98 | with the intended auto-connect guard (see "## Findings"): the peripheral is cached; a known record is refreshed with one `device_updated`, a new one is created with one `device_discovered`; a connect is started exactly for a saved device passing the guard; an auto scan asks to stop exactly when every saved, disconnected device has a cached peripheral |
| Discovery.WifiIdHasDot | src/services/ble/discovery.ts:107 | the WiFi test comes down to the id holding a dot |
| Discovery.Listed | src/services/ble/discovery.ts:110-113 | a record without its characteristics, with every other field kept |
| Discovery.GetDevices | src/services/ble/discovery.ts:103-115 | exactly the non-WiFi records, listed |
| Discovery.GetDevice | src/services/ble/discovery.ts:120-122 | the record under the id, if any |
| Discovery.StopScan | src/services/ble/discovery.ts:127-147 | the timer is cleared; a running scan stops, its type is cleared and one `scan_stopped` is emitted; otherwise nothing else changes |
| Discovery.AddMissingKeeps | src/services/ble/discovery.ts:170-178 | the mock scan never overwrites a known record, and afterwards every fixture is known |
| Discovery.NewlyFound | src/services/ble/discovery.ts:171-176 | the ids announced were unknown before |
| Discovery.SavedToConnect | src/services/ble/discovery.ts:180-184 | no more ids than fixtures |
| Discovery.SavedToConnectContents | src/services/ble/discovery.ts:180-184 | an id is connected in the background exactly when it is a fixture that is saved and not connected |
| Discovery.MockScanOnEmpty | src/services/ble/discovery.ts:169-177 | on an empty registry all three fixtures are added and announced in order |
| Discovery.AddMissingKeyed | src/services/ble/discovery.ts:172-175 | records stay stored under their own ids |
| Discovery.FixtureStep | src/services/ble/discovery.ts:170-185 | one more fixture extends the registry, the announcements and the connects as the loop does |
| Discovery.AddFixtures | src/services/ble/discovery.ts:169-185 | the loop adds the unknown fixtures, announces each once in order, and returns the saved, disconnected ones for connecting |
| Discovery.StartScan | src/services/ble/discovery.ts:152-242 | while a scan runs: the current list, no event, no change. Otherwise `scan_started` comes first, then: the mock scan adds the fixtures and stops with one `scan_stopped`; no adapter library drops the flag and fails; an adapter that is not ready in time fails with the flag still set; a failed start stops with the error; a successful start arms the timer |
| Discovery.BeginScan | src/services/ble/discovery.ts:161-163 | the flag and the type are set and `scan_started` is emitted |
| Discovery.ScanFixtures | src/services/ble/discovery.ts:165-193 | the mock branch: fixtures added, the scan flag dropped, one `scan_stopped` |
| Discovery.ScanRadio | src/services/ble/discovery.ts:196-241 | the radio branch's outcomes, each with its flag state and events; the not-ready message names the adapter state seen when the wait begins |
| Connection.NormalizeUuid | src/services/ble/connection.ts:72-83 | lower case, without hyphens |
| Connection.AddUnique | src/services/ble/connection.ts:73-85 | `Set.add`: appended only when absent |
| Connection.AddUniqueKeepsDistinct | src/services/ble/connection.ts:70-86 | adding keeps the list free of duplicates |
| Connection.ServiceOf | src/services/ble/connection.ts:82 | `_serviceUuid \|\| 'unknown'` |
| Connection.ServiceSetContents | src/services/ble/connection.ts:70-74 | after the first loop: each normalised service once |
| Connection.WithCharServicesDistinct | src/services/ble/connection.ts:79-86 | the second loop keeps the list free of duplicates |
| Connection.WithCharServicesElements | src/services/ble/connection.ts:79-86 | the second loop adds exactly the characteristics' known services |
| Connection.ServiceListContents | src/services/ble/connection.ts:70-98 | the stored services are every normalised service and every known characteristic service, each once, and nothing else |
| Connection.CollectServices | src/services/ble/connection.ts:70-98 | the two loops compute exactly that list |
| Connection.CharMapKeys | src/services/ble/connection.ts:76-80 | the handle map holds exactly the reported uuids |
| Connection.CharMapLastWins | src/services/ble/connection.ts:80 | under each uuid, the last characteristic reported with it |
| Connection.CharRecords | src/services/ble/connection.ts:87-91 | the record list in reported order, `unknown` for a missing service |
| Connection.CollectCharacteristics | src/services/ble/connection.ts:76-92 | the loop builds that map and that list |
| Connection.InitialLightStateProperties | src/services/ble/connection.ts:119-124 | every field read is kept; the defaults power off, brightness 100, temperature 50 fill the rest; those three keys come first |
| Connection.InitialStateOfStatus | src/services/ble/connection.ts:119-124 | a status read gives on, its brightness, temperature 50, its colour |
| Connection.AttachDiscovered | src/services/ble/connection.ts:94-111 | the record is connected, with the discovered characteristics and services; the handle map is stored; one `device_connected` |
| Connection.ReadInitialState | src/services/ble/connection.ts:114-135 | the result is the status read of the connected record; a read with fields is persisted as the last state (one database write when it changes it) and stored over the defaults with one `device_updated`; an empty read changes nothing |
| Connection.StoreInitialState | src/services/ble/connection.ts:119-125 | only the record's state changes, to the defaults overlaid by the read fields; one `device_updated`; the status read of the device is unaffected |
| Connection.ConnectMock | src/services/ble/connection.ts:40-50 | connected with the two mock characteristics; one `device_connected` |
| Connection.AfterConnect | src/services/ble/connection.ts:94-125 | id, name, signal and last-seen kept; connected, with the discovered characteristics and services; the state replaced by the initial one exactly when the read gave fields |
| Connection.StopEvents | src/services/ble/discovery.ts:133-146 | `stopScan` emits one `scan_stopped` exactly when a scan was running |
| Connection.ConnectDiscovered | src/services/ble/connection.ts:68-137 | only this record changes, to AfterConnect of the old one; its handle map is stored; `device_connected`, then `device_updated` exactly when the initial read gave fields; the initial state is the status read, and it is persisted exactly when non-empty |
| Connection.ConnectPeripheral | src/services/ble/connection.ts:60-141 | the scan is stopped first (timer and flag cleared, type cleared when a scan ran); a rejected connection or discovery is rethrown with records, handle maps and the whole settings store unchanged and only the stop event emitted; otherwise ConnectedByRadio after the stop event |
| Connection.ConnectedByRadio | src/services/ble/connection.ts:94-137 | the state a connect through the radio leaves: one record replaced by AfterConnect, its handle map stored, the connect and update events; when the read gave fields they are spread over the stored last state, with one database write when that changes it, and the call is logged; otherwise the settings are as before |
| Connection.ConnectDisconnected | src/services/ble/connection.ts:40-142 | for a known, disconnected device: mock: ConnectMock, with handle maps, scan state and settings unchanged; no peripheral: an error with nothing changed; otherwise ConnectPeripheral, with the same error path and the same full effect |
| Connection.ConnectDevice | src/services/ble/connection.ts:29-142 | unknown: an error, and connected: returned as it is, both with records, handle maps, events, scan state and settings unchanged; the other paths as ConnectDisconnected |
| Connection.OnPeripheralDisconnect | src/services/ble/connection.ts:102-109 | disconnected, no characteristics, handle map dropped, one `device_disconnected` |
| Connection.DisconnectDevice | src/services/ble/connection.ts:147-184 | unknown: an error, with records, handle maps and events unchanged; disconnected: no change; otherwise disconnected with no characteristics and one `device_disconnected`, even when the adapter call fails; only a real disconnect drops the handle map |
| BleService.SliceFrom | src/services/ble/index.ts:20 | `slice(start)` with a negative start counted from the end |
| BleService.GetCommandLog | src/services/ble/index.ts:19-21 | the last `limit` entries in their order; 0 gives the whole log |
| BleService.GetCommandLogAfterAppend | src/services/ble/index.ts:19-21 | appending an entry moves the default window by one |
| BleService.ClearCommandLog | src/services/ble/index.ts:23-25 | the log is empty |
| BleService.SavedRecord | src/services/ble/index.ts:38-51 | the record is stored under its own id |
| BleService.SavedRecordFields | src/services/ble/index.ts:38-51 | connected exactly for a WiFi id; the custom name, else `WiFi AC` or `Saved Device`; signal -100, no services; settings and last state mirrored |
| BleService.Populated | src/services/ble/index.ts:30-55 | existing records kept; each saved or WiFi id without a record gets one; nothing else added |
| BleService.PopulatedStep | src/services/ble/index.ts:32-53 | one more settings entry adds its record exactly when it is new and saved or WiFi |
| BleService.PopulatedIdempotent | src/services/ble/index.ts:30-55 | populating twice adds nothing more |
| BleService.PopulateSavedDevices | src/services/ble/index.ts:30-55 | the `forEach` computes exactly that registry |
| BleService.ReconnectLoop.constructor | src/services/ble/index.ts:60 | no interval yet |
| BleService.ReconnectLoop.StartAutoReconnectLoop | src/services/ble/index.ts:62-75 | once the interval exists nothing happens; otherwise one 2 s timer and one 30 s interval are armed |
| BleService.AttemptReconnects | src/services/ble/index.ts:77-108 | the saved, disconnected devices with a cached peripheral are connected; a scan is asked for exactly when one such device has none; nothing happens when there are none |
| BleService.Initialize | src/services/ble/index.ts:132-185 | a second call reports and changes nothing; the first loads settings, populates, starts the loop, then picks mock mode on an unsupported platform, when forced, or when noble is missing, keeping the adapter state in those cases, and otherwise records the adapter state |
| Hub.SyncPlan | src/services/hub.ts:59-93 | one light command per key, in key order, for a connected BLE device; otherwise one AC command per key for a connected WiFi device; otherwise none |
| Hub.AcCommandComesBack | src/services/hub.ts:79-88 | an AC command's hub update is pushed back to the same AC as the same command |
| Hub.SyncToHardware | src/services/hub.ts:59-93 | the dispatch is exactly that plan: the light loop turns each entry into its light command; for an AC, each entry is already its AC command; the WiFi registry and AC states are kept once loaded |
| Hub.UpdateDeviceState | src/services/hub.ts:12-54 | an unknown id changes nothing; otherwise a BLE record's state becomes `{...old, ...new}`, the partial state is spread over the stored last state whatever the source, with one database write exactly when that changes it, one `device_updated` is emitted, and the hardware is synced unless the source is the hardware |
| Ac.MockAc | src/services/ac.ts:14-21 | a connected `ac` device at `192.168.1.50` |
| Ac.Saved | src/services/ac.ts:27-32 | `lastState?.key ?? default` |
| Ac.SeedState | src/services/ac.ts:26-33 | the six keys, each from the saved state, else its default |
| Ac.SeedWithoutLastState | src/services/ac.test.ts:11-17 | without a saved state: off, 22, 24, `cool`, `auto`, no swing |
| Ac.SeedKeepsLastState | src/services/ac.ts:27-28 | a saved power flag or target temperature survives the seed |
| Ac.CommandMerge | src/services/ac.ts:73 | a command sets its own key and leaves the others |
| Ac.AcService.constructor | src/services/ac.ts:6-7 | empty maps |
| Ac.AcService.EnsureMockAC | src/services/ac.ts:12-35 | only when no WiFi device exists: the mock AC is registered and seeded; afterwards some device exists |
| Ac.AcService.GetWiFiDevices | src/services/ac.ts:40-43 | the registered devices after seeding; never empty |
| Ac.AcService.GetACState | src/services/ac.ts:48-51 | the AC state, or undefined for an unknown id |
| Ac.AcService.SendACCommand | src/services/ac.ts:56-82 | unknown id: false, no hub update, no state change; otherwise the hub update `{[type]: value}` is asked for, the field is merged into the AC state, and the result is true |
| Proxy.PathSegments | src/proxy.ts:38-39 | the non-empty, slash-free pieces of the path; an empty path counts as `/` |
| Proxy.Decide | src/proxy.ts:42-54 | a redirect exactly when there is no session and the path is neither public nor an auth path |
| Proxy.OpenPaths | src/proxy.ts:46-54 | public and auth paths pass whatever the session; with a session every path passes |
| Proxy.TrailingSlash | src/proxy.ts:39 | a trailing slash does not change the segments |
| Proxy.PublicUnderPrefix | src/proxy.ts:37-48 | `/register` behind any prefix, followed by nothing or by a slash, is public and passes |
| Proxy.PublicExamples | src/proxy.integration.test.ts:28-33 | `/register/`, `/en/register` and `/register/x` are public |
| Proxy.AuthPath | src/proxy.ts:44-48 | `/auth` and everything below it passes |
| Proxy.ApiAuthPath | src/proxy.ts:44-48 | `/api/auth` and everything below it passes |
| Proxy.AuthAndRootExamples | src/proxy.ts:38-52 | `/api/auth/x` and `/auth` are auth paths; `/` has no segments and redirects without a session |
| Proxy.ClientCookies | src/proxy.ts:14-22 | each cookie's name and value in order, or none when reading them throws |
| Proxy.ProxyResponse.constructor | src/proxy.ts:6 | no cookies |
| Proxy.ProxyResponse.SetAll | src/proxy.ts:23-27 | each cookie is set in turn and a later one with the same name wins; every given name is set; no other name appears |
| Proxy.AppliedKeys | src/proxy.ts:24-26 | the names after `setAll` are the old ones plus the given ones |
| ValidateCredentials.Validate | src/app/api/auth/validate-credentials/route.ts:5-63 | 500 for a body that cannot be parsed or a throwing lookup; 400 for a missing field; 200 exactly when every check passes, with the user minus the hash |
| ValidateCredentials.ValidationBeforeLookup | src/app/api/auth/validate-credentials/route.ts:10-15 | an incomplete body gets 400 whatever the lookup returns |
| ValidateCredentials.WrongPasswordLooksLikeUnknownUser | src/app/api/auth/validate-credentials/route.ts:24-47 | a wrong password, a lookup error and an unknown email get the same 401 |
| ValidateCredentials.InactiveBeforePassword | src/app/api/auth/validate-credentials/route.ts:32-37 | an inactive account is refused with 401 before its password is looked at |
| ValidateCredentials.SuccessHidesHash | src/app/api/auth/validate-credentials/route.ts:50-55 | the success response does not depend on the stored hash |
| Register.ProfileName | src/app/api/auth/register/route.ts:45 | the given name when truthy, else the email's text before its first `@` |
| Register.LocalPartName | src/app/api/auth/register/route.ts:45 | without a name, `local@domain` gives `local` |
| Register.ProfileNameExample | src/app/api/auth/register.test.ts:116-136 | `user@example.com` without a name gives `user` |
| Register.Register | src/app/api/auth/register/route.ts:4-65 | 500 for an unparsable body; 400 for a missing field or a password shorter than 8 UTF-16 code units; `createUser` is called exactly when these pass; its error gives 400 with its message; 201 with `{id, email}` and the name update exactly on success |
| Register.ShortPasswordBeforeCreate | src/app/api/auth/register/route.ts:17-22 | a password under 8 code units is refused before any auth call |
| Register.AstralPasswordLongEnough | src/app/api/auth/register/route.ts:17 | four emoji are 8 code units, so such a password reaches `createUser` |
| Register.UpdateFailureOnlyLogged | src/app/api/auth/register/route.ts:50-52 | a failing profile update changes nothing the client sees |
| Register.SignupWithoutName | src/app/api/auth/register/route.ts:42-48 | a signup without a name stores the email's local part |

## Left out

- Asynchrony and timers. Promise interleavings, `setTimeout`/`setInterval` delays, the scan timer firing and the EventEmitter listeners are not modelled. Each `await` runs to completion in order. Armed timers are recorded only as values (`ReconnectLoop.armed`, `scanTimerSet`).
- Fire-and-forget `connectDevice` calls (discovery, mock scan, reconnect loop) and the reconnect loop's `startScan(15000, 'auto')`. They are returned as ids or flags, not run.
- The adapter's `stateChange` and `discover` listeners installed by `initialize` and by the adapter wait in `startScan`. The adapter state that the wait observes is an input.
- Discovery.ScanRadio: the not-ready error names the adapter state at the start of the wait. discovery.ts:206 reads `state.nobleState` when the timeout fires, and a `stateChange` to another state that is not `poweredOn` can have changed it in between.
- Radio I/O: `connectAsync`, service discovery, `readAsync`, `writeAsync`, `subscribeAsync`, `start/stopScanningAsync` and `disconnectAsync`. Their results are parameters.
- Aliasing of device objects. Records are values in a map. Two effects are not modelled:
  - The JavaScript disconnect handler writes back the object captured at connect time, which can bring back fields changed in between.
  - `sendACCommand` logs the state object after it was replaced.
- `getDevices` returns a set. The order of `Map.values()` is not modelled, and neither is the iteration order of `populateSavedDevices` and `attemptReconnects`. Their results do not depend on it.
- `Hub.SyncToHardware`: a failing `sendLightCommand`/`sendACCommand` is not modelled. The commands come back as a `Dispatch`; they are not sent.
- The reconciler never calls the AC service back: the AC command cycle is stated by `Hub.AcCommandComesBack` rather than run.
- File and database I/O. `saveSettings`, `saveDeviceToDb` and `JSON.parse` of the settings file are ghost counters and an optional input map.
- Test-only contracts:
  - `resetStateForTesting` and `resetSettingsForTesting` are not modelled.
  - The change detection that `settings_db.test.ts` expects of `setDeviceSettings` is not modelled, because the code saves unconditionally.
- `generateId` and `Date.now`: they are parameters.
- IEEE doubles: brightness uses exact integer formulas, with the one value (100) where the double product differs written out. Channel values are unbounded non-negative integers.
- Unicode: case folding is ASCII only, and `\s` is the ASCII white-space characters. String lengths are counted in characters, except the password-length rule, which counts UTF-16 code units as `.length` does (`JsString.Utf16Length`).
- The proxy's `matcher` (proxy.ts:57-61) is not modelled. It keeps every `/api`, `_next/static`, `_next/image`, `favicon.ico` and `public` path away from the proxy, so `Proxy.ApiAuthPath` and the `/api/auth` cases of `Proxy.AuthAndRootExamples` state what `proxy` decides if it is called, not behaviour a request can reach.
- Dynamic payloads:
  - `ControlCommand.value` is modelled per command type, so a value of the wrong type cannot be expressed.
  - Request bodies hold only the fields the routes read, as optional strings; a non-string email or password is not modelled.
- Supabase: the session lookup, the cookie options and the `updated_at` timestamp are not modelled.
- Password hashing: `verifyPassword` is the parameter `verify`.
- `Register.Register`: the `updateFailed` parameter does not influence the outcome. That is the property `Register.UpdateFailureOnlyLogged` states, because the route only logs the failure.
- Discovery.HandleDiscover: uses the intended auto-connect guard (the peripheral's state is not exactly `connected`), not the substring test written at discovery.ts:73. `Discovery.AutoConnectGuardAsWritten` models the code as written, and `Discovery.DisconnectedFailsWrittenGuard` shows where the two differ (see "## Findings").
- Interaction.OnNotification: updates the notifying device's own last `a044`/`a040` entry, not the entry the filter written at interaction.ts:374 selects. `Interaction.NotificationMatchesAsWritten` models the code as written, and `Interaction.NotificationCrossTalk` shows where the two differ (see "## Findings").
- Event payloads: events carry only the type and the device id or scan data that the contracts talk about, not the whole device object.

## Findings

| source | as written | input that shows it | evidently intended | confidence | as-written member | corrected member |
|---|---|---|---|---|---|---|
| src/services/ble/discovery.ts:73 | the auto-connect guard is `!peripheral.state.includes('connected')` | a saved device whose peripheral is in the adapter's ordinary state `disconnected`: the substring test finds `connected`, so it is never auto-connected on discovery | connect unless the state is exactly `connected` | not executed | Discovery.AutoConnectGuardAsWritten (counterexample Discovery.DisconnectedFailsWrittenGuard) | Discovery.AutoConnectGuard (Discovery.GuardOnAdapterStates; used by Discovery.HandleDiscover) |
| src/services/ble/interaction.ts:374 | the filter is `l.deviceId === deviceId && l.characteristic === 'a044' \|\| l.characteristic === 'a040'`, and `&&` binds tighter than `\|\|` | a log whose last entry is lamp B's `a040` write, then a notification from lamp A: lamp B's entry gets lamp A's data | the notifying device's own `a044` or `a040` entry | not executed | Interaction.NotificationMatchesAsWritten (counterexample Interaction.NotificationCrossTalk) | Interaction.NotificationMatches (Interaction.NotificationStaysOnDevice; used by Interaction.OnNotification) |
