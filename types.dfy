/**
 * The hub's entities (src/types/index.ts, src/services/ble/types.ts) and the
 * partial-state records that every state update is made of.
 */
module Types {
  import opened Wrappers

  /** `{ r, g, b }`; channel values are non-negative integers. */
  datatype RGB = RGB(r: nat, g: nat, b: nat)

  /** The keys of `LightState` and `ACState`. */
  datatype Key =
    | KPower | KBrightness | KColorTemperature | KColor
    | KTargetTemp | KCurrentTemp | KMode | KFanSpeed | KSwing

  /** One key/value pair of a `Partial<LightState | ACState>` object. */
  datatype Field =
    | Power(on: bool)
    | Brightness(level: int)
    | ColorTemperature(temp: int)
    | Color(rgb: RGB)
    | TargetTemp(targetTemp: int)
    | CurrentTemp(currentTemp: int)
    | Mode(mode: string)
    | FanSpeed(fanSpeed: string)
    | Swing(swing: bool)

  function KeyOf(f: Field): Key {
    match f
    case Power(_) => KPower
    case Brightness(_) => KBrightness
    case ColorTemperature(_) => KColorTemperature
    case Color(_) => KColor
    case TargetTemp(_) => KTargetTemp
    case CurrentTemp(_) => KCurrentTemp
    case Mode(_) => KMode
    case FanSpeed(_) => KFanSpeed
    case Swing(_) => KSwing
  }

  /**
   * A partial state object. JavaScript objects keep their keys in insertion
   * order, so a record is a sequence of fields with pairwise distinct keys.
   */
  type Record = seq<Field>

  predicate Distinct(r: Record) {
    forall i, j :: 0 <= i < j < |r| ==> KeyOf(r[i]) != KeyOf(r[j])
  }

  function Keys(r: Record): (ks: seq<Key>)
    ensures |ks| == |r| && forall i :: 0 <= i < |r| ==> ks[i] == KeyOf(r[i])
  {
    seq(|r|, i requires 0 <= i < |r| => KeyOf(r[i]))
  }

  /** `obj[key]`: the field stored under `k`, if any. */
  function Get(r: Record, k: Key): (o: Option<Field>)
    ensures o.Some? ==> KeyOf(o.value) == k && o.value in r
    ensures o.None? ==> forall i :: 0 <= i < |r| ==> KeyOf(r[i]) != k
  {
    if r == [] then None else if KeyOf(r[0]) == k then Some(r[0]) else Get(r[1..], k)
  }

  /** `obj[key] = value`: overwrite in place, or append a new key at the end. */
  function Put(r: Record, f: Field): (r': Record)
    ensures |r'| == |r| || |r'| == |r| + 1
    ensures forall i :: 0 <= i < |r| ==> KeyOf(r'[i]) == KeyOf(r[i])
    ensures |r'| == |r| + 1 ==> r'[|r|] == f
  {
    if r == [] then [f]
    else if KeyOf(r[0]) == KeyOf(f) then [f] + r[1..]
    else [r[0]] + Put(r[1..], f)
  }

  /** `{ ...a, ...b }`: the keys of `b` overwrite or extend those of `a`. */
  function Merge(a: Record, b: Record): Record
    decreases |b|
  {
    if b == [] then a else Merge(Put(a, b[0]), b[1..])
  }

  /** Every field of `b` is stored, with that value, in `a`. */
  ghost predicate Covers(a: Record, b: Record) {
    forall i :: 0 <= i < |b| ==> Get(a, KeyOf(b[i])) == Some(b[i])
  }

  lemma {:induction false} GetPut(r: Record, f: Field, k: Key)
    ensures Get(Put(r, f), k) == if k == KeyOf(f) then Some(f) else Get(r, k)
  {
    if r != [] && KeyOf(r[0]) != KeyOf(f) {
      GetPut(r[1..], f, k);
    }
  }

  lemma {:induction false} PutDistinct(r: Record, f: Field)
    requires Distinct(r)
    ensures Distinct(Put(r, f))
  {
    if r != [] && KeyOf(r[0]) != KeyOf(f) {
      PutDistinct(r[1..], f);
      var t := Put(r[1..], f);
      forall i | 0 <= i < |t| ensures KeyOf(t[i]) != KeyOf(r[0]) {
        if i < |r| - 1 {
          assert KeyOf(t[i]) == KeyOf(r[1..][i]);
        } else {
          assert t[i] == f;
        }
      }
    }
  }

  lemma {:induction false} PutAppends(r: Record, f: Field)
    requires Get(r, KeyOf(f)).None?
    ensures Put(r, f) == r + [f]
  {
    if r != [] {
      PutAppends(r[1..], f);
    } 
  }

  /** Reading after a spread: the right operand wins where it has the key. */
  lemma {:induction false} MergeGet(a: Record, b: Record, k: Key)
    requires Distinct(b)
    ensures Get(Merge(a, b), k) == if Get(b, k).Some? then Get(b, k) else Get(a, k)
    decreases |b|
  {
    if b != [] {
      assert Distinct(b[1..]);
      MergeGet(Put(a, b[0]), b[1..], k);
      GetPut(a, b[0], k);
      if KeyOf(b[0]) == k {
        assert Get(b[1..], k).None?;
      }
    }
  }

  /** A spread of distinct-key objects has distinct keys. */
  lemma {:induction false} MergeDistinct(a: Record, b: Record)
    requires Distinct(a)
    ensures Distinct(Merge(a, b))
    decreases |b|
  {
    if b != [] {
      PutDistinct(a, b[0]);
      MergeDistinct(Put(a, b[0]), b[1..]);
    }
  }

  /** A spread keeps the keys already present at their positions. */
  lemma {:induction false} MergeKeepsOrder(a: Record, b: Record)
    ensures |Merge(a, b)| >= |a|
    ensures Keys(Merge(a, b))[..|a|] == Keys(a)
    decreases |b|
  {
    if b != [] {
      MergeKeepsOrder(Put(a, b[0]), b[1..]);
    }
  }

  /** After `{ ...a, ...b }` every field of `b` can be read back. */
  lemma MergeCovers(a: Record, b: Record)
    requires Distinct(b)
    ensures Covers(Merge(a, b), b)
  {
    forall i | 0 <= i < |b| ensures Get(Merge(a, b), KeyOf(b[i])) == Some(b[i]) {
      MergeGet(a, b, KeyOf(b[i]));
      GetFirst(b, i);
    }
  }

  lemma {:induction false} GetFirst(r: Record, i: nat)
    requires Distinct(r) && i < |r|
    ensures Get(r, KeyOf(r[i])) == Some(r[i])
  {
    if i > 0 {
      assert Distinct(r[1..]);
      GetFirst(r[1..], i - 1);
    }
  }

  lemma {:induction false} PutPresent(r: Record, f: Field)
    requires Get(r, KeyOf(f)) == Some(f)
    ensures Put(r, f) == r
  {
    if r != [] && KeyOf(r[0]) != KeyOf(f) {
      PutPresent(r[1..], f);
    }
  }

  /** Spreading in fields that are already stored changes nothing. */
  lemma {:induction false} MergeCovered(a: Record, b: Record)
    requires Covers(a, b)
    ensures Merge(a, b) == a
    decreases |b|
  {
    if b != [] {
      PutPresent(a, b[0]);
      assert Covers(a, b[1..]) by {
        forall i | 0 <= i < |b[1..]| ensures Get(a, KeyOf(b[1..][i])) == Some(b[1..][i]) {
          assert b[1..][i] == b[i + 1];
        }
      }
      MergeCovered(a, b[1..]);
    }
  }

  /** `command.type` / `command.value` of a `ControlCommand`. */
  datatype Command =
    | PowerCmd(on: bool)
    | BrightnessCmd(level: int)
    | ColorTemperatureCmd(temp: int)
    | ColorCmd(rgb: RGB)
    | RawCmd(hex: string)
    | OtherCmd(typeName: string)   // a `type` outside the declared union

  /** `{ type: key, value }` as the hub builds it from one state field. */
  function CommandOf(f: Field): (c: Command)
    ensures f.Power? <==> c.PowerCmd?
    ensures f.Brightness? <==> c.BrightnessCmd?
    ensures f.Color? <==> c.ColorCmd?
    ensures f.ColorTemperature? <==> c.ColorTemperatureCmd?
    ensures !c.RawCmd?
  {
    match f
    case Power(on) => PowerCmd(on)
    case Brightness(l) => BrightnessCmd(l)
    case ColorTemperature(t) => ColorTemperatureCmd(t)
    case Color(rgb) => ColorCmd(rgb)
    case TargetTemp(_) => OtherCmd("targetTemp")
    case CurrentTemp(_) => OtherCmd("currentTemp")
    case Mode(_) => OtherCmd("mode")
    case FanSpeed(_) => OtherCmd("fanSpeed")
    case Swing(_) => OtherCmd("swing")
  }

  /** `BLECharacteristic` as stored on a device record. */
  datatype Characteristic = Characteristic(
    uuid: string,
    serviceUuid: string,
    properties: seq<string>,
    value: Option<string>)

  /** An adapter characteristic handle, as stored in `state.characteristics`. */
  datatype CharHandle = CharHandle(uuid: string, properties: seq<string>)

  /** The parts of an adapter peripheral that the hub reads. */
  datatype Peripheral = Peripheral(
    id: string,
    localName: Option<string>,
    serviceUuids: seq<string>,
    rssi: Option<int>,
    state: string)

  /** `DeviceDetails`: the registry record of one device. */
  datatype Device = Device(
    id: string,
    name: string,
    customName: Option<string>,
    rssi: int,
    connected: bool,
    services: seq<string>,
    lastSeen: int,
    saved: bool,
    profileId: Option<string>,
    targetChar: Option<string>,
    state: Option<Record>,
    characteristics: seq<Characteristic>)

  /** A device record without its `characteristics`, as listed to clients. */
  datatype ListedDevice = ListedDevice(
    id: string,
    name: string,
    customName: Option<string>,
    rssi: int,
    connected: bool,
    services: seq<string>,
    lastSeen: int,
    saved: bool,
    profileId: Option<string>,
    targetChar: Option<string>,
    state: Option<Record>)

  /** `CommandLogEntry` */
  datatype LogEntry = LogEntry(
    id: string,
    deviceId: string,
    timestamp: int,
    characteristic: string,
    command: string,
    success: bool,
    response: Option<string>)

  /** The persisted settings of one device. */
  datatype DeviceSetting = DeviceSetting(
    saved: Option<bool>,
    customName: Option<string>,
    profileId: Option<string>,
    targetChar: Option<string>,
    lastState: Option<Record>)

  const NoSettings := DeviceSetting(None, None, None, None, None)

  /** `a || b` on optional strings. */
  function OrElse(a: Option<string>, b: string): (r: string)
    ensures Truthy(a) ==> r == a.value
    ensures !Truthy(a) ==> r == b
  {
    if Truthy(a) then a.value else b
  }
}
