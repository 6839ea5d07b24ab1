/**
 * The in-memory WiFi air conditioner service (src/services/ac.ts). The hub
 * update that `sendACCommand` requests is returned to the caller rather
 * than run, which keeps the AC and hub modules free of their cycle.
 */
module Ac {
  import opened Wrappers
  import opened Types
  import opened Settings

  /** `WiFiDevice` */
  datatype WiFiDevice = WiFiDevice(id: string, name: string, ip: string, kind: string, connected: bool, lastSeen: int)

  const MockAcId := "192.168.1.50"

  function MockAc(now: int): (d: WiFiDevice)
    ensures d.id == MockAcId && d.ip == MockAcId && d.connected && d.kind == "ac"
  {
    WiFiDevice(MockAcId, "Pro Klima AC (Living Room)", MockAcId, "ac", true, now)
  }

  /** `lastState?.<key> ?? fallback` */
  function Saved(last: Option<Record>, fallback: Field): (f: Field)
    ensures KeyOf(f) == KeyOf(fallback)
    ensures last.Some? && Get(last.value, KeyOf(fallback)).Some? ==> f == Get(last.value, KeyOf(fallback)).value
    ensures (last.None? || Get(last.value, KeyOf(fallback)).None?) ==> f == fallback
  {
    if last.Some? && Get(last.value, KeyOf(fallback)).Some? then Get(last.value, KeyOf(fallback)).value else fallback
  }

  const AcDefaults: Record :=
    [Power(false), TargetTemp(22), CurrentTemp(24), Mode("cool"), FanSpeed("auto"), Swing(false)]

  /** The AC state `ensureMockAC` seeds: each key from the saved last state, else its default. */
  function SeedState(last: Option<Record>): (r: Record)
    ensures |r| == |AcDefaults| && Keys(r) == Keys(AcDefaults) && Distinct(r)
    ensures forall i :: 0 <= i < |r| ==> r[i] == Saved(last, AcDefaults[i])
  {
    [Saved(last, Power(false)), Saved(last, TargetTemp(22)), Saved(last, CurrentTemp(24)),
     Saved(last, Mode("cool")), Saved(last, FanSpeed("auto")), Saved(last, Swing(false))]
  }

  /** Without a saved state the seed is the defaults: off, 22 degrees target, 24 current, cool, auto, no swing. */
  lemma SeedWithoutLastState()
    ensures SeedState(None) == AcDefaults
    ensures Get(SeedState(None), KPower) == Some(Power(false))
    ensures Get(SeedState(None), KTargetTemp) == Some(TargetTemp(22))
  {
  }

  /** A saved power flag or target temperature survives the seed. */
  lemma SeedKeepsLastState(last: Record, f: Field)
    requires f in last && (f.Power? || f.TargetTemp?) && Distinct(last)
    ensures Get(SeedState(Some(last)), KeyOf(f)) == Some(f)
  {
    var i :| 0 <= i < |last| && last[i] == f;
    GetFirst(last, i);
  }

  /** A command sets its own key of the AC state and leaves every other key as it was. */
  lemma CommandMerge(s: Record, command: Field, k: Key)
    ensures Get(Merge(s, [command]), k) == if k == KeyOf(command) then Some(command) else Get(s, k)
  {
    MergeGet(s, [command], k);
  }

  class AcService {
    var wifiDevices: map<string, WiFiDevice>
    var acStates: map<string, Record>

    /** Every WiFi device is stored under its own id. */
    ghost predicate Valid()
      reads this
    {
      forall id :: id in wifiDevices ==> wifiDevices[id].id == id
    }

    constructor()
      ensures wifiDevices == map[] && acStates == map[] && Valid()
    {
      wifiDevices := map[];
      acStates := map[];
    }

    /**
     * `ensureMockAC()`: only while no WiFi device exists, the mock AC is
     * registered and its state seeded from the settings' last state.
     */
    method EnsureMockAC(store: SettingsStore, now: int)
      requires Valid()
      modifies this
      ensures Valid()
      ensures old(wifiDevices) != map[] ==> wifiDevices == old(wifiDevices) && acStates == old(acStates)
      ensures old(wifiDevices) == map[] ==> (
        wifiDevices == map[MockAcId := MockAc(now)]
        && acStates == old(acStates)[MockAcId := SeedState(store.GetDeviceSettings(MockAcId).lastState)])
      ensures wifiDevices != map[]
    {
      if wifiDevices != map[] {
        return;
      }
      var settings := store.GetDeviceSettings(MockAcId);
      wifiDevices := wifiDevices[MockAcId := MockAc(now)];
      acStates := acStates[MockAcId := SeedState(settings.lastState)];
      assert MockAcId in wifiDevices;
    }

    /** `getWiFiDevices()`: the registered devices, after seeding the mock. */
    method GetWiFiDevices(store: SettingsStore, now: int) returns (ds: set<WiFiDevice>)
      requires Valid()
      modifies this
      ensures Valid()
      ensures old(wifiDevices) != map[] ==> wifiDevices == old(wifiDevices) && acStates == old(acStates)
      ensures old(wifiDevices) == map[] ==> wifiDevices == map[MockAcId := MockAc(now)]
      ensures ds == set id | id in wifiDevices :: wifiDevices[id]
      ensures ds != {}
    {
      EnsureMockAC(store, now);
      ds := set id | id in wifiDevices :: wifiDevices[id];
      var id :| id in wifiDevices;
      assert wifiDevices[id] in ds;
    }

    /** `getACState(id)`: the AC state, `undefined` for an unknown id. */
    method GetACState(store: SettingsStore, now: int, deviceId: string) returns (s: Option<Record>)
      requires Valid()
      modifies this
      ensures Valid()
      ensures old(wifiDevices) != map[] ==> wifiDevices == old(wifiDevices) && acStates == old(acStates)
      ensures old(wifiDevices) == map[] ==> wifiDevices == map[MockAcId := MockAc(now)]
      ensures deviceId in acStates ==> s == Some(acStates[deviceId])
      ensures deviceId !in acStates ==> s == None
    {
      EnsureMockAC(store, now);
      s := if deviceId in acStates then Some(acStates[deviceId]) else None;
    }

    /**
     * `sendACCommand(id, {type, value})`: after seeding, an unknown id gives
     * false and changes nothing more; otherwise the hub is asked to apply
     * `{[type]: value}` from the UI (`hubUpdate`), the field is merged into
     * the AC state, and the result is true.
     */
    method SendACCommand(store: SettingsStore, now: int, deviceId: string, command: Field)
      returns (ok: bool, hubUpdate: Option<(string, Record)>)
      requires Valid()
      modifies this
      ensures Valid()
      ensures old(wifiDevices) != map[] ==> wifiDevices == old(wifiDevices)
      ensures old(wifiDevices) == map[] ==> wifiDevices == map[MockAcId := MockAc(now)]
      ensures ok <==> (old(wifiDevices) == map[] && deviceId == MockAcId) || deviceId in old(acStates)
      ensures !ok ==> hubUpdate == None && (old(wifiDevices) != map[] ==> acStates == old(acStates))
      ensures ok ==> (
        hubUpdate == Some((deviceId, [command]))
        && deviceId in acStates && Get(acStates[deviceId], KeyOf(command)) == Some(command))
      ensures ok && old(wifiDevices) != map[] ==> (
        acStates == old(acStates)[deviceId := Merge(old(acStates)[deviceId], [command])])
    {
      EnsureMockAC(store, now);
      if deviceId !in acStates {
        return false, None;
      }
      ghost var before := acStates[deviceId];
      hubUpdate := Some((deviceId, [command]));
      acStates := acStates[deviceId := Merge(acStates[deviceId], [command])];
      ok := true;
      MergeGet(before, [command], KeyOf(command));
    }
  }
}
