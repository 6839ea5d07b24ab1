/**
 * The per-device settings store (src/services/ble/settings.ts) and the
 * last-state persistence it offers to the rest of the hub. File and database
 * writes are counted in ghost fields; their contents are not modelled.
 */
module Settings {
  import opened Wrappers
  import opened Types
  import opened State

  /** The argument of `setDeviceSettings`: each key may be given or left out. */
  datatype SettingsPatch = SettingsPatch(
    targetChar: Option<string>,
    profileId: Option<string>,
    saved: Option<bool>,
    customName: Option<string>)

  function Override<T>(given: Option<T>, existing: Option<T>): Option<T> {
    if given.Some? then given else existing
  }

  /** `{ ...existing, ...patch }` */
  function MergeSetting(e: DeviceSetting, p: SettingsPatch): DeviceSetting {
    DeviceSetting(
      Override(p.saved, e.saved),
      Override(p.customName, e.customName),
      Override(p.profileId, e.profileId),
      Override(p.targetChar, e.targetChar),
      e.lastState)
  }

  /** The in-memory mirror of a patch: only the given keys are copied; `customName` also renames. */
  function ApplyPatch(d: Device, p: SettingsPatch): Device {
    var d1 := if p.profileId.Some? then d.(profileId := p.profileId) else d;
    var d2 := if p.targetChar.Some? then d1.(targetChar := p.targetChar) else d1;
    var d3 := if p.saved.Some? then d2.(saved := p.saved.value) else d2;
    if p.customName.Some? then d3.(customName := p.customName, name := p.customName.value) else d3
  }

  /** `settings.saved = !settings.saved` (an absent flag counts as false). */
  function Toggled(s: DeviceSetting): DeviceSetting {
    s.(saved := Some(!s.saved.GetOr(false)))
  }

  /** A device record carries the same settings as the store holds for it. */
  predicate Mirrors(d: Device, s: DeviceSetting) {
    d.profileId == s.profileId && d.targetChar == s.targetChar
    && d.saved == s.saved.GetOr(false) && d.customName == s.customName
  }

  /** The spread: given keys overwrite, the others (and `lastState`) are kept. */
  lemma MergeSettingKeys(e: DeviceSetting, p: SettingsPatch)
    ensures var r := MergeSetting(e, p);
      (p.saved.Some? ==> r.saved == p.saved) && (p.saved.None? ==> r.saved == e.saved)
      && (p.customName.Some? ==> r.customName == p.customName) && (p.customName.None? ==> r.customName == e.customName)
      && (p.profileId.Some? ==> r.profileId == p.profileId) && (p.profileId.None? ==> r.profileId == e.profileId)
      && (p.targetChar.Some? ==> r.targetChar == p.targetChar) && (p.targetChar.None? ==> r.targetChar == e.targetChar)
      && r.lastState == e.lastState
  {
  }

  /** Two patches in a row act as one patch in which the later keys win. */
  lemma MergeSettingCompose(e: DeviceSetting, p: SettingsPatch, q: SettingsPatch)
    ensures MergeSetting(MergeSetting(e, p), q) == MergeSetting(e, SettingsPatch(
      Override(q.targetChar, p.targetChar), Override(q.profileId, p.profileId),
      Override(q.saved, p.saved), Override(q.customName, p.customName)))
  {
  }

  /** Applying the same patch twice is the same as applying it once. */
  lemma PatchIdempotent(e: DeviceSetting, d: Device, p: SettingsPatch)
    ensures MergeSetting(MergeSetting(e, p), p) == MergeSetting(e, p)
    ensures ApplyPatch(ApplyPatch(d, p), p) == ApplyPatch(d, p)
  {
  }

  /** Mirroring a patch onto the device keeps the device in step with the store. */
  lemma ApplyPatchMirrors(d: Device, s: DeviceSetting, p: SettingsPatch)
    requires Mirrors(d, s)
    ensures Mirrors(ApplyPatch(d, p), MergeSetting(s, p))
    ensures ApplyPatch(d, p).id == d.id && ApplyPatch(d, p).connected == d.connected
      && ApplyPatch(d, p).state == d.state && ApplyPatch(d, p).characteristics == d.characteristics
    ensures p.customName.None? ==> ApplyPatch(d, p).name == d.name
    ensures p.customName.Some? ==> ApplyPatch(d, p).name == p.customName.value
  {
  }

  /** Toggling twice restores the flag; toggling mirrors onto the device. */
  lemma ToggleTwice(s: DeviceSetting, d: Device)
    ensures Toggled(s).saved.GetOr(false) == !s.saved.GetOr(false)
    ensures Toggled(Toggled(s)).saved.GetOr(false) == s.saved.GetOr(false)
    ensures Toggled(s).(saved := s.saved) == s
    ensures Mirrors(d, s) ==> Mirrors(d.(saved := !s.saved.GetOr(false)), Toggled(s))
  {
  }

  /**
   * The last state after `updateDeviceLastState`: the partial state spread
   * over what was stored before.
   */
  function NextLastState(prev: Option<Record>, partial: Record): Record {
    Merge(prev.GetOr([]), partial)
  }

  /**
   * After an update the stored last state holds every field of the partial
   * state, and the same update again changes nothing (so it writes nothing).
   */
  lemma NextLastStateProperties(prev: Option<Record>, partial: Record)
    requires Distinct(partial)
    ensures Covers(NextLastState(prev, partial), partial)
    ensures NextLastState(Some(NextLastState(prev, partial)), partial) == NextLastState(prev, partial)
    ensures prev.Some? && Distinct(prev.value) ==> Distinct(NextLastState(prev, partial))
    ensures forall k :: Get(partial, k).None? ==> Get(NextLastState(prev, partial), k) == Get(prev.GetOr([]), k)
  {
    MergeCovers(prev.GetOr([]), partial);
    MergeCovered(NextLastState(prev, partial), partial);
    if prev.Some? && Distinct(prev.value) {
      MergeDistinct(prev.value, partial);
    }
    forall k | Get(partial, k).None?
      ensures Get(NextLastState(prev, partial), k) == Get(prev.GetOr([]), k)
    {
      MergeGet(prev.GetOr([]), partial, k);
    }
  }

  /** The record `entries` holds for `id`, or `{}`. */
  function SettingsFor(entries: map<string, DeviceSetting>, id: string): (s: DeviceSetting)
    ensures id in entries ==> s == entries[id]
    ensures id !in entries ==> s == NoSettings
  {
    if id in entries then entries[id] else NoSettings
  }

  class SettingsStore {
    var entries: map<string, DeviceSetting>
    ghost var fileWrites: nat                          // calls of `saveSettings`
    ghost var dbWrites: nat                            // calls of `saveDeviceToDb`
    ghost var lastStateCalls: seq<(string, Record)>    // calls of `updateDeviceLastState`

    constructor()
      ensures entries == map[] && fileWrites == 0 && dbWrites == 0 && lastStateCalls == []
    {
      entries := map[];
      fileWrites := 0;
      dbWrites := 0;
      lastStateCalls := [];
    }

    /** `getDeviceSettings`: the stored record, or `{}` for an unknown id. */
    function GetDeviceSettings(id: string): (s: DeviceSetting)
      reads this
      ensures id in entries ==> s == entries[id]
      ensures id !in entries ==> s == NoSettings
    {
      SettingsFor(entries, id)
    }

    /**
     * `loadSettings`: `file` is the parsed settings file, `None` when it does
     * not exist or cannot be parsed; each of its entries replaces the one in memory.
     */
    method LoadSettings(file: Option<map<string, DeviceSetting>>)
      modifies this`entries
      ensures file.None? ==> entries == old(entries)
      ensures file.Some? ==> entries == old(entries) + file.value
    {
      if file.Some? {
        entries := entries + file.value;
      }
    }

    /** `toggleSaveDevice` */
    method ToggleSaveDevice(st: BleState, id: string) returns (saved: bool)
      requires st.Valid()
      modifies this`entries, this`fileWrites, st`devices, st`events
      ensures st.Valid()
      ensures saved == !old(GetDeviceSettings(id)).saved.GetOr(false)
      ensures entries == old(entries)[id := Toggled(old(GetDeviceSettings(id)))]
      ensures fileWrites == old(fileWrites) + 1
      ensures id in old(st.devices) ==>
        st.devices == old(st.devices)[id := old(st.devices)[id].(saved := saved)]
        && st.events == old(st.events) + [DeviceUpdated(id)]
      ensures id !in old(st.devices) ==> st.devices == old(st.devices) && st.events == old(st.events)
    {
      var settings := GetDeviceSettings(id);
      settings := Toggled(settings);
      entries := entries[id := settings];
      fileWrites := fileWrites + 1;
      if id in st.devices {
        st.devices := st.devices[id := st.devices[id].(saved := settings.saved.value)];
        st.EmitEvent(DeviceUpdated(id));
      }
      saved := settings.saved.value;
    }

    /** `setDeviceSettings` */
    method SetDeviceSettings(st: BleState, id: string, patch: SettingsPatch)
      requires st.Valid()
      modifies this`entries, this`fileWrites, st`devices, st`events
      ensures st.Valid()
      ensures entries == old(entries)[id := MergeSetting(old(GetDeviceSettings(id)), patch)]
      ensures fileWrites == old(fileWrites) + 1
      ensures id in old(st.devices) ==>
        st.devices == old(st.devices)[id := ApplyPatch(old(st.devices)[id], patch)]
        && st.events == old(st.events) + [DeviceUpdated(id)]
      ensures id !in old(st.devices) ==> st.devices == old(st.devices) && st.events == old(st.events)
    {
      var existing := GetDeviceSettings(id);
      entries := entries[id := MergeSetting(existing, patch)];
      fileWrites := fileWrites + 1;
      if id in st.devices {
        var device := st.devices[id];
        if patch.profileId.Some? { device := device.(profileId := patch.profileId); }
        if patch.targetChar.Some? { device := device.(targetChar := patch.targetChar); }
        if patch.saved.Some? { device := device.(saved := patch.saved.value); }
        if patch.customName.Some? {
          device := device.(customName := patch.customName);
          device := device.(name := patch.customName.value);
        }
        st.devices := st.devices[id := device];
        st.EmitEvent(DeviceUpdated(id));
      }
    }

    /**
     * `updateDeviceLastState`: spreads the partial state over the stored last
     * state, and writes to the database only when some field changes.
     */
    method UpdateDeviceLastState(id: string, partial: Record)
      requires Distinct(partial)
      modifies this`entries, this`dbWrites, this`lastStateCalls
      ensures entries == old(entries)[id := old(GetDeviceSettings(id)).(
        lastState := Some(NextLastState(old(GetDeviceSettings(id)).lastState, partial)))]
      ensures dbWrites == old(dbWrites) + (if Covers(old(GetDeviceSettings(id)).lastState.GetOr([]), partial) then 0 else 1)
      ensures lastStateCalls == old(lastStateCalls) + [(id, partial)]
    {
      var existing := GetDeviceSettings(id);
      ghost var changed := !Covers(existing.lastState.GetOr([]), partial);
      entries := entries[id := existing.(lastState := Some(NextLastState(existing.lastState, partial)))];
      if changed {
        dbWrites := dbWrites + 1;
      }
      lastStateCalls := lastStateCalls + [(id, partial)];
    }
  }
}
