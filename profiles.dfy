/** The static device-profile catalog (src/profiles/index.ts). */
module Profiles {
  import opened Wrappers

  /** Wire encodings a profile can use. */
  datatype WireEncoding = ILink55aa | Triones | Magic | Raw

  datatype DeviceProfile = DeviceProfile(
    id: string,
    name: string,
    targetChar: string,
    statusChar: Option<string>,
    encoding: WireEncoding)

  /** `PROFILES`, in catalog order. */
  function Catalog(): (ps: seq<DeviceProfile>)
    ensures |ps| == 4
    ensures forall i, j :: 0 <= i < j < |ps| ==> ps[i].id != ps[j].id
    ensures forall i :: 0 <= i < |ps| ==> ps[i].targetChar != ""
    ensures ps[|ps| - 1].id == "generic" && ps[|ps| - 1].encoding == Raw && ps[|ps| - 1].statusChar.None?
  {
    [ DeviceProfile("ilink", "iLink (55AA)", "a040", Some("a042"), ILink55aa),
      DeviceProfile("triones", "Triones / Happy Lighting", "ffe1", Some("ffe1"), Triones),
      DeviceProfile("magic-home", "Magic Home / Flux LED", "ffe1", Some("ffe1"), Magic),
      DeviceProfile("generic", "Generic / Single Byte", "ffe1", None, Raw) ]
  }

  /** The catalog entry used when no known profile applies: the last one. */
  function Fallback(): (p: DeviceProfile)
    ensures p == Catalog()[|Catalog()| - 1]
  {
    Catalog()[3]
  }

  function FindIn(ps: seq<DeviceProfile>, id: string): (p: Option<DeviceProfile>)
    ensures p.Some? ==> p.value in ps && p.value.id == id
    ensures p.None? ==> forall i :: 0 <= i < |ps| ==> ps[i].id != id
  {
    if ps == [] then None else if ps[0].id == id then Some(ps[0]) else FindIn(ps[1..], id)
  }

  /** `PROFILES.find(p => p.id === id)` */
  function Find(id: string): (p: Option<DeviceProfile>)
    ensures p.Some? ==> p.value in Catalog() && p.value.id == id
    ensures p.None? <==> forall i :: 0 <= i < |Catalog()| ==> Catalog()[i].id != id
  {
    FindIn(Catalog(), id)
  }

  /** `PROFILES.find(p => p.id === id) || PROFILES[PROFILES.length - 1]` */
  function FindOrFallback(id: string): (p: DeviceProfile)
    ensures p in Catalog() && p.targetChar != ""
    ensures (exists i :: 0 <= i < |Catalog()| && Catalog()[i].id == id) ==> p.id == id
    ensures (forall i :: 0 <= i < |Catalog()| ==> Catalog()[i].id != id) ==> p == Fallback()
  {
    match Find(id)
    case Some(p) => p
    case None => Fallback()
  }

  /** The catalog entries as the original declares them. */
  lemma CatalogEntries()
    ensures Find("ilink") == Some(DeviceProfile("ilink", "iLink (55AA)", "a040", Some("a042"), ILink55aa))
    ensures Find("triones").Some? && Find("triones").value.targetChar == "ffe1"
      && Find("triones").value.statusChar == Some("ffe1") && Find("triones").value.encoding == Triones
    ensures Find("magic-home").Some? && Find("magic-home").value.targetChar == "ffe1"
      && Find("magic-home").value.statusChar == Some("ffe1") && Find("magic-home").value.encoding == Magic
    ensures Find("generic") == Some(Fallback())
    ensures [Catalog()[0].id, Catalog()[1].id, Catalog()[2].id, Catalog()[3].id]
      == ["ilink", "triones", "magic-home", "generic"]
  {
  }
}
