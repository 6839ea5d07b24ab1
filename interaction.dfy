/**
 * Reading, writing and subscribing to characteristics, and turning a light
 * command into a frame for the device's profile (src/services/ble/interaction.ts).
 * Adapter calls (`readAsync`, `writeAsync`, `subscribeAsync`) are outcome
 * parameters; `generateId()` and `Date.now()` are the `logId` and `now` parameters.
 */
module Interaction {
  import opened Wrappers
  import opened JsString
  import opened Hex
  import opened Types
  import opened Profiles
  import opened Encoding
  import opened State
  import opened Settings

  // ---------------------------------------------------------------- status frames

  /** `Math.floor(raw / 2.55)`: the percentage a status byte stands for. */
  function StatusBrightness(raw: byte): (pct: nat)
    ensures pct <= 100
    ensures 255 * pct <= 100 * raw < 255 * (pct + 1)
  {
    raw * 20 / 51
  }

  /** `brightness || 100`: a zero percentage is reported as full brightness. */
  function StatusLevel(raw: byte): (level: nat)
    ensures 1 <= level <= 100
    ensures StatusBrightness(raw) != 0 ==> level == StatusBrightness(raw)
    ensures raw < 3 ==> level == 100
  {
    var pct := StatusBrightness(raw);
    if pct == 0 then 100 else pct
  }

  lemma SubstringHex(s: string, a: int, b: int)
    requires IsHexString(s)
    ensures IsHexString(Substring(s, a, b))
  {
  }

  /** `parseInt(s.substring(i, i + 2), 16)` inside a hex string. */
  function PairAt(s: string, i: nat): (v: byte)
    requires IsHexString(s) && i + 2 <= |s|
    ensures v == 16 * DigitValue(s[i]) + DigitValue(s[i + 1])
  {
    HexValuePair(s[i..i + 2]);
    HexValue(s[i..i + 2])
  }

  /**
   * `parseILinkStatus(hex)`: only `55aa` frames with cid 8815 or 8814 and at
   * least four payload bytes say anything; the length byte and the checksum
   * are never looked at.
   */
  function ParseILinkStatus(hex: string): (r: Record)
    requires IsHexString(hex)
    ensures Distinct(r)
    ensures r != [] <==>
      StartsWith(hex, "55aa") && Substring(hex, 6, 10) in {"8815", "8814"}
      && |Substring(hex, 10, |hex| - 2)| >= 8
    ensures r != [] ==>
      |r| == 3 && r[0] == Power(true) && r[1].Brightness? && 1 <= r[1].level <= 100
      && r[2].Color? && ByteChannels(r[2].rgb)
  {
    if !StartsWith(hex, "55aa") then []
    else
      var cid := Substring(hex, 6, 10);
      var data := Substring(hex, 10, |hex| - 2);
      SubstringHex(hex, 10, |hex| - 2);
      if cid == "8815" || cid == "8814" then
        if |data| < 8 then []
        else
          [Power(true), Brightness(StatusLevel(PairAt(data, 6))),
           Color(RGB(PairAt(data, 0), PairAt(data, 2), PairAt(data, 4)))]
      else []
  }

  /**
   * A status frame is read field by field from its payload, whatever its
   * length byte and checksum say.
   */
  lemma ParseStatusFrame(lenHex: string, cid: string, data: string, csHex: string)
    requires |lenHex| == 2 && |csHex| == 2 && cid in {"8815", "8814"} && |data| >= 8
    requires IsHexString(lenHex) && IsHexString(data) && IsHexString(csHex)
    ensures IsHexString("55aa" + lenHex + cid + data + csHex)
    ensures ParseILinkStatus("55aa" + lenHex + cid + data + csHex)
      == [Power(true), Brightness(StatusLevel(PairAt(data, 6))),
          Color(RGB(PairAt(data, 0), PairAt(data, 2), PairAt(data, 4)))]
  {
    var hex := "55aa" + lenHex + cid + data + csHex;
    var pre := "55aa" + lenHex;
    assert IsHexString("55aa") && IsHexString(cid);
    HexJoin("55aa", lenHex);
    HexJoin(pre, cid);
    HexJoin(pre + cid, data);
    HexJoin(pre + cid + data, csHex);
    assert |hex| == 12 + |data|;
    assert hex[..4] == "55aa";
    SliceMiddle(pre, cid, data + csHex);
    assert hex[6..10] == cid;
    SliceMiddle(pre + cid, data, csHex);
    assert hex[10..|hex| - 2] == data;
  }

  lemma HexJoin(a: string, b: string)
    requires IsHexString(a) && IsHexString(b)
    ensures IsHexString(a + b)
  {
    assert forall i :: 0 <= i < |a + b| ==> (a + b)[i] == if i < |a| then a[i] else b[i - |a|];
  }

  /** The middle part of a concatenation is sliced back out at its offsets. */
  lemma SliceMiddle(a: string, b: string, c: string)
    ensures (a + b + c)[|a|..|a| + |b|] == b
  {
  }

  /** Two printed digits of a byte, read back with `parseInt`, give the byte. */
  lemma PairOfHex2(s: string, i: nat, n: byte)
    requires IsHexString(s) && i + 2 <= |s| && s[i..i + 2] == Hex2(n)
    ensures PairAt(s, i) == n
  {
    Hex2Byte(n);
    assert s[i] == Digit(n / 16) && s[i + 1] == Digit(n % 16);
  }

  /** Four bytes printed as hex and followed by more text are read back one by one. */
  lemma PairsOfEncoded(r: byte, g: byte, b: byte, raw: byte, rest: string)
    requires IsHexString(rest)
    ensures var data := EncodeHex([r, g, b, raw]) + rest;
      |data| >= 8 && IsHexString(data)
      && PairAt(data, 0) == r && PairAt(data, 2) == g && PairAt(data, 4) == b && PairAt(data, 6) == raw
  {
    var data := EncodeHex([r, g, b, raw]) + rest;
    EncodeFour(r, g, b, raw);
    Hex2Byte(r);
    Hex2Byte(g);
    Hex2Byte(b);
    Hex2Byte(raw);
    HexJoin(EncodeHex([r, g, b, raw]), rest);
    assert data == Hex2(r) + Hex2(g) + Hex2(b) + Hex2(raw) + rest;
    assert data[0..2] == Hex2(r) && data[2..4] == Hex2(g);
    assert data[4..6] == Hex2(b) && data[6..8] == Hex2(raw);
    PairOfHex2(data, 0, r);
    PairOfHex2(data, 2, g);
    PairOfHex2(data, 4, b);
    PairOfHex2(data, 6, raw);
  }

  lemma EncodeFour(r: byte, g: byte, b: byte, raw: byte)
    ensures EncodeHex([r, g, b, raw]) == Hex2(r) + Hex2(g) + Hex2(b) + Hex2(raw)
  {
    assert EncodeHex([raw]) == Hex2(raw) + EncodeHex([]);
    assert EncodeHex([b, raw]) == Hex2(b) + EncodeHex([raw]);
    assert EncodeHex([g, b, raw]) == Hex2(g) + EncodeHex([b, raw]);
    assert EncodeHex([r, g, b, raw]) == Hex2(r) + EncodeHex([g, b, raw]);
  }

  /** An iLink frame of canonical data has a two-digit length and checksum around the data. */
  lemma ILinkFrameShape(cid: string, data: string)
    requires ValidCid(cid) && CanonicalData(data)
    ensures exists lenHex: string, csHex: string ::
      |lenHex| == 2 && |csHex| == 2 && IsHexString(lenHex) && IsHexString(csHex)
      && ILinkFrame(cid, data) == "55aa" + lenHex + cid + data + csHex
  {
    DecodeHexLength(data);
    var n := |DecodeHex(data)|;
    var cs := ILinkChecksum(FrameSum(cid, data));
    Hex2Byte(n);
    Hex2Byte(cs);
    assert ILinkFrame(cid, data) == "55aa" + Hex2(n) + cid + data + Hex2(cs);
  }

  /**
   * The encoder and the decoder agree: a status frame built by
   * `encodeILinkCommand` from colour and brightness bytes parses back to them.
   */
  lemma StatusRoundTrip(r: byte, g: byte, b: byte, raw: byte, rest: string)
    requires CanonicalData(EncodeHex([r, g, b, raw]) + rest)
    ensures ValidCid("8815") && IsHexString(ILinkFrame("8815", EncodeHex([r, g, b, raw]) + rest))
    ensures ParseILinkStatus(ILinkFrame("8815", EncodeHex([r, g, b, raw]) + rest))
      == [Power(true), Brightness(StatusLevel(raw)), Color(RGB(r, g, b))]
  {
    var data := EncodeHex([r, g, b, raw]) + rest;
    assert ValidCid("8815");
    assert IsHexString(rest) by {
      forall i | 0 <= i < |rest| ensures IsHexDigit(rest[i]) {
        assert rest[i] == data[|EncodeHex([r, g, b, raw])| + i];
      }
    }
    PairsOfEncoded(r, g, b, raw, rest);
    ILinkFrameShape("8815", data);
    var lenHex: string, csHex: string :|
      |lenHex| == 2 && |csHex| == 2 && IsHexString(lenHex) && IsHexString(csHex)
      && ILinkFrame("8815", data) == "55aa" + lenHex + "8815" + data + csHex;
    ParseStatusFrame(lenHex, "8815", data, csHex);
  }

  /** The value a mock read returns carries no status. */
  lemma MockReadHasNoStatus()
    ensures IsHexString("0100640032") && ParseILinkStatus("0100640032") == []
  {
    assert "0100640032"[0] != "55aa"[0];
  }

  // ------------------------------------------------------------ profile resolution

  predicate MentionsILink(uuid: string) {
    Includes(ToLower(uuid), "a032")
  }

  /** `c.serviceUuid && (lower.includes('a032') || lower.replace(/-/g, '') === 'a032')` */
  predicate CharMentionsILink(c: Characteristic) {
    c.serviceUuid != ""
    && (MentionsILink(c.serviceUuid) || RemoveAll(ToLower(c.serviceUuid), '-') == "a032")
  }

  /** The a032 heuristic of `sendLightCommand`. */
  predicate LooksLikeILink(d: Device) {
    "a032" in d.services
    || (exists i :: 0 <= i < |d.services| && MentionsILink(d.services[i]))
    || (exists i :: 0 <= i < |d.characteristics| && CharMentionsILink(d.characteristics[i]))
  }

  /**
   * The profile `sendLightCommand` uses: the configured one, else `ilink` when
   * the device looks like one, else `generic`; an unknown id falls back to the
   * last catalog entry.
   */
  function ResolveProfile(s: DeviceSetting, d: Device): (p: DeviceProfile)
    ensures p in Catalog()
    ensures Truthy(s.profileId) && Find(s.profileId.value).Some? ==> p == Find(s.profileId.value).value
    ensures Truthy(s.profileId) && Find(s.profileId.value).None? ==> p == Fallback()
    ensures !Truthy(s.profileId) && LooksLikeILink(d) ==> p.id == "ilink" && p.encoding == ILink55aa
    ensures !Truthy(s.profileId) && !LooksLikeILink(d) ==> p == Fallback() && p.encoding == Raw
  {
    CatalogEntries();
    FindOrFallback(OrElse(s.profileId, if LooksLikeILink(d) then "ilink" else "generic"))
  }

  /**
   * The profile `getLightState` uses: the same order, but its heuristic only
   * accepts an advertised service spelled exactly `a032`, and an unknown id
   * gives no profile at all.
   */
  function StatusProfile(s: DeviceSetting, d: Device): (p: Option<DeviceProfile>)
    ensures p.Some? ==> p.value in Catalog()
    ensures Truthy(s.profileId) ==> p == Find(s.profileId.value)
    ensures !Truthy(s.profileId) && "a032" in d.services ==> p.Some? && p.value.encoding == ILink55aa
    ensures !Truthy(s.profileId) && "a032" !in d.services ==> p == Some(Fallback())
  {
    CatalogEntries();
    Find(OrElse(s.profileId, if "a032" in d.services then "ilink" else "generic"))
  }

  /**
   * The two heuristics differ: a device that advertises its a032 service in
   * long form is driven as iLink but its status is never read.
   */
  lemma HeuristicsDiffer(d: Device)
    requires d.services == ["0000a032"]
    ensures ResolveProfile(NoSettings, d).encoding == ILink55aa
    ensures StatusProfile(NoSettings, d) == Some(Fallback()) && Fallback().statusChar.None?
  {
    var u := "0000a032";
    assert ToLower(u) == u;
    assert u[4..8] == "a032";
    IncludesAt(u, "a032", 4);
    assert MentionsILink(d.services[0]);
    assert "a032" !in d.services;
  }

  // ----------------------------------------------------------------------- frames

  /**
   * `Math.min(255, Math.floor(value * 2.55))` on an integer: the product is
   * `value * 51 / 20` exactly, except at 100 where the double is just below 255.
   */
  function ILinkBrightnessByte(v: int): (n: int)
    ensures n <= 255
    ensures v >= 0 ==> n >= 0
    ensures v < 0 ==> n < 0
    ensures v == 100 ==> n == 254
    ensures v > 100 ==> n == 255
    ensures v < 100 ==> 20 * n <= 51 * v < 20 * (n + 1)
  {
    if v == 100 then 254 else if v > 100 then 255 else v * 51 / 20
  }

  /** `Math.min(100, Math.max(0, value))` */
  function RawBrightness(v: int): (b: nat)
    ensures b <= 100
    ensures 0 <= v <= 100 ==> b == v
    ensures v < 0 ==> b == 0
    ensures v > 100 ==> b == 100
  {
    if v < 0 then 0 else if v > 100 then 100 else v
  }

  /** The command types each wire encoding has a frame for. */
  predicate Encodes(e: WireEncoding, c: Command) {
    match e
    case ILink55aa => c.PowerCmd? || c.BrightnessCmd? || c.ColorCmd?
    case Triones => c.PowerCmd? || c.ColorCmd?
    case Magic => c.PowerCmd? || c.BrightnessCmd? || c.ColorCmd?
    case Raw => c.PowerCmd? || c.BrightnessCmd?
  }

  /** `hexCommand` as the encoding switch of `sendLightCommand` builds it. */
  function LightFrame(e: WireEncoding, c: Command): (frame: string)
    ensures frame == "" <==> !Encodes(e, c)
  {
    match e
    case ILink55aa =>
      (match c
       case PowerCmd(on) => ILinkFrame("0805", if on then "01" else "00")
       case BrightnessCmd(v) => ILinkFrame("0801", Hex2Signed(ILinkBrightnessByte(v)))
       case ColorCmd(rgb) => ILinkFrame("0802", Hex2(rgb.r) + Hex2(rgb.g) + Hex2(rgb.b))
       case _ => "")
    case Triones => EncodeTriones(c)
    case Magic => EncodeMagicHome(c)
    case Raw =>
      (match c
       case PowerCmd(on) => if on then "01" else "00"
       case BrightnessCmd(v) => "02" + Hex2(RawBrightness(v))
       case _ => "")
  }

  /** No encoding has a frame for a `raw` command, so such a command is never written. */
  lemma RawCommandHasNoFrame(e: WireEncoding, hex: string)
    ensures LightFrame(e, RawCmd(hex)) == "" && LightFrame(e, ColorTemperatureCmd(0)) == ""
  {
  }

  /** The bytes of an iLink command frame, and that they pass the checksum test. */
  lemma ILinkCommandBytes(cid: string, hi: byte, lo: byte, data: string, bytes: seq<byte>)
    requires ValidCid(cid) && |cid| == 4 && IsLowerHex(cid) && CanonicalData(data)
    requires CidHi(cid) == hi && CidLo(cid) == lo && DecodeHex(data) == bytes
    ensures |bytes| < 256
    ensures DecodeHex(ILinkFrame(cid, data)) == ILinkBytes(hi, lo, bytes)
    ensures ChecksumOk(DecodeHex(ILinkFrame(cid, data)))
  {
    ILinkFrameBytes(cid, data);
    ILinkBytesChecksum(hi, lo, bytes);
  }

  /** The iLink power frames laid out as bytes, with a checksum the device accepts. */
  lemma ILinkPowerFrame(on: bool)
    ensures DecodeHex(LightFrame(ILink55aa, PowerCmd(on))) == ILinkBytes(0x08, 0x05, [if on then 1 else 0])
    ensures ChecksumOk(DecodeHex(LightFrame(ILink55aa, PowerCmd(on))))
    ensures LightFrame(ILink55aa, PowerCmd(on)) == if on then "55aa01080501f1" else "55aa01080500f2"
  {
    var data := if on then "01" else "00";
    assert ValidCid("0805") && IsLowerHex("0805") && CanonicalData(data);
    assert DecodeHex(data) == [if on then 1 else 0];
    ILinkCommandBytes("0805", 0x08, 0x05, data, [if on then 1 else 0]);
    ILinkVectors();
  }

  /** The iLink brightness frame: one data byte, the scaled level. */
  lemma ILinkBrightnessFrame(v: int)
    requires v >= 0
    ensures 0 <= ILinkBrightnessByte(v) < 256
    ensures DecodeHex(LightFrame(ILink55aa, BrightnessCmd(v))) == ILinkBytes(0x08, 0x01, [ILinkBrightnessByte(v)])
    ensures ChecksumOk(DecodeHex(LightFrame(ILink55aa, BrightnessCmd(v))))
  {
    var n: byte := ILinkBrightnessByte(v);
    var data := Hex2(n);
    Hex2Byte(n);
    DecodeHex2(n);
    assert ValidCid("0801") && IsLowerHex("0801") && CanonicalData(data);
    assert LightFrame(ILink55aa, BrightnessCmd(v)) == ILinkFrame("0801", data);
    ILinkCommandBytes("0801", 0x08, 0x01, data, [n]);
  }

  /** The iLink colour frame: one data byte per channel. */
  lemma ILinkColorFrame(c: RGB)
    requires ByteChannels(c)
    ensures DecodeHex(LightFrame(ILink55aa, ColorCmd(c))) == ILinkBytes(0x08, 0x02, [c.r, c.g, c.b])
    ensures ChecksumOk(DecodeHex(LightFrame(ILink55aa, ColorCmd(c))))
  {
    var data := Hex2(c.r) + Hex2(c.g) + Hex2(c.b);
    ColorHex(c);
    assert IsLowerHex(data) by {
      assert IsLowerHex(Hex2(c.r)) && IsLowerHex(Hex2(c.g)) && IsLowerHex(Hex2(c.b));
    }
    assert ValidCid("0802") && IsLowerHex("0802") && CanonicalData(data);
    assert LightFrame(ILink55aa, ColorCmd(c)) == ILinkFrame("0802", data);
    ILinkCommandBytes("0802", 0x08, 0x02, data, [c.r, c.g, c.b]);
  }

  /** The single-byte protocol: `01`/`00` for power, `02` and the clamped level for brightness. */
  lemma RawFrames(on: bool, v: int)
    ensures DecodeHex(LightFrame(Raw, PowerCmd(on))) == [if on then 1 else 0]
    ensures DecodeHex(LightFrame(Raw, BrightnessCmd(v))) == [2, RawBrightness(v)]
  {
    var b: byte := RawBrightness(v);
    RawPowerFrames(on);
    DecodeHex2(b);
    Hex2Byte(b);
    RawBrightnessByte();
    DecodeHexAppend("02", Hex2(b));
  }

  lemma RawPowerFrames(on: bool)
    ensures DecodeHex(LightFrame(Raw, PowerCmd(on))) == [if on then 1 else 0]
  {
  }

  lemma RawBrightnessByte()
    ensures IsHexString("02") && DecodeHex("02") == [2]
  {
    assert "02"[2..] == "";
  }

  // ------------------------------------------------------------ target and state

  /** `characteristics.find(c => write || writeWithoutResponse)` */
  function FirstWritable(cs: seq<Characteristic>): (o: Option<Characteristic>)
    ensures o.Some? ==> (o.value in cs
      && ("write" in o.value.properties || "writeWithoutResponse" in o.value.properties))
    ensures o.None? ==> forall i :: 0 <= i < |cs| ==>
      "write" !in cs[i].properties && "writeWithoutResponse" !in cs[i].properties
  {
    if cs == [] then None
    else if "write" in cs[0].properties || "writeWithoutResponse" in cs[0].properties then Some(cs[0])
    else FirstWritable(cs[1..])
  }

  /**
   * The characteristic a command goes to: the configured one, else the
   * profile's, else the first writable one, else `ffe1`. Every catalog
   * profile names one, so the last two steps never happen.
   */
  function TargetChar(s: DeviceSetting, p: DeviceProfile, d: Device): (t: string)
    ensures t != ""
    ensures Truthy(s.targetChar) ==> t == s.targetChar.value
    ensures p in Catalog() ==> t == OrElse(s.targetChar, p.targetChar)
  {
    var t0 := OrElse(s.targetChar, p.targetChar);
    if t0 != "" then t0
    else
      var w := FirstWritable(d.characteristics);
      if w.Some? && w.value.uuid != "" then w.value.uuid else "ffe1"
  }

  /** The field persisted after a successful write: exactly the commanded one. */
  function StateUpdateFor(c: Command): (r: Record)
    ensures Distinct(r) && |r| <= 1
    ensures r == [] <==> c.RawCmd? || c.OtherCmd?
    ensures |r| == 1 ==> CommandOf(r[0]) == c
  {
    match c
    case PowerCmd(on) => [Power(on)]
    case BrightnessCmd(v) => [Brightness(v)]
    case ColorCmd(rgb) => [Color(rgb)]
    case ColorTemperatureCmd(t) => [ColorTemperature(t)]
    case _ => []
  }

  // ---------------------------------------------------------- characteristic keys

  /** The write path's lookup key: lower case, first `0x` removed, hyphens stripped. */
  function WriteKey(uuid: string): string {
    RemoveAll(RemoveFirst(ToLower(uuid), "0x"), '-')
  }

  /** The read and subscribe paths' lookup key: lower case, first `0x` removed. */
  function ReadKey(uuid: string): string {
    RemoveFirst(ToLower(uuid), "0x")
  }

  /** `chars.get(normalized) || chars.get(lower) || chars.get(uuid)` */
  function LookupForWrite(chars: map<string, CharHandle>, uuid: string): (h: Option<CharHandle>)
    ensures h.Some? <==> WriteKey(uuid) in chars || ToLower(uuid) in chars || uuid in chars
    ensures WriteKey(uuid) in chars ==> h == Some(chars[WriteKey(uuid)])
    ensures h.Some? ==> h.value in chars.Values
  {
    if WriteKey(uuid) in chars then Some(chars[WriteKey(uuid)])
    else if ToLower(uuid) in chars then Some(chars[ToLower(uuid)])
    else if uuid in chars then Some(chars[uuid])
    else None
  }

  /** `chars.get(normalized) || chars.get(uuid)` */
  function LookupForRead(chars: map<string, CharHandle>, uuid: string): (h: Option<CharHandle>)
    ensures h.Some? <==> ReadKey(uuid) in chars || uuid in chars
    ensures ReadKey(uuid) in chars ==> h == Some(chars[ReadKey(uuid)])
    ensures h.Some? ==> h.value in chars.Values
  {
    if ReadKey(uuid) in chars then Some(chars[ReadKey(uuid)])
    else if uuid in chars then Some(chars[uuid])
    else None
  }

  /** Normalising leaves a key that is already lower-case hex as it is. */
  lemma CanonicalKeys(k: string)
    requires IsLowerHex(k)
    ensures WriteKey(k) == k && ReadKey(k) == k
  {
    assert ToLower(k) == k;
    if Includes(k, "0x") {
      IncludesElem(k, "0x", 'x');
      assert false;
    }
    assert '-' !in k;
  }

  /** Upper case and a `0x` prefix reach the same map key. */
  lemma PrefixedKey()
    ensures WriteKey("0xFFE1") == "ffe1" && ReadKey("0xFFE1") == "ffe1"
  {
    var low := ToLower("0xFFE1");
    assert low[0] == '0' && low[1] == 'x' && low[2] == 'f' && low[3] == 'f' && low[4] == 'e' && low[5] == '1';
    assert low == "0xffe1";
    assert StartsWith(low, "0x");
    assert low[2..] == "ffe1";
    CanonicalKeys("ffe1");
  }

  /** Hyphens are dropped on the write path. */
  lemma HyphenatedKey()
    ensures WriteKey("FF-E1") == "ffe1"
  {
    LowerHyphenated();
    NoPrefixToDrop("ff-e1", "0x", 'x');
    HyphenDropped();
  }

  lemma LowerHyphenated()
    ensures ToLower("FF-E1") == "ff-e1"
  {
    var low := ToLower("FF-E1");
    assert low[0] == 'f' && low[1] == 'f' && low[2] == '-' && low[3] == 'e' && low[4] == '1';
  }

  /** Text that lacks a character of the pattern has no occurrence to remove. */
  lemma NoPrefixToDrop(s: string, t: string, c: char)
    requires c in t && c !in s
    ensures RemoveFirst(s, t) == s
  {
    if Includes(s, t) {
      IncludesElem(s, t, c);
    }
  }

  lemma HyphenDropped()
    ensures RemoveAll("ff-e1", '-') == "ffe1"
  {
    assert "ff-e1" == "ff" + ['-'] + "e1";
    RemoveOne("ff", '-', "e1");
    assert "ff" + "e1" == "ffe1";
  }

  lemma RemoveOne(a: string, c: char, b: string)
    requires c !in a && c !in b
    ensures RemoveAll(a + [c] + b, c) == a + b
  {
    RemoveAllAppend(a + [c], b, c);
    RemoveAllAppend(a, [c], c);
    RemoveSeparator(c);
  }

  lemma RemoveSeparator(c: char)
    ensures RemoveAll([c], c) == []
  {
    assert [c][1..] == [];
  }


  // ------------------------------------------------------------------- writes

  predicate Connected(devices: map<string, Device>, id: string) {
    id in devices && devices[id].connected
  }

  /** `state.characteristics.get(deviceId)` */
  function CharsOf(st: BleState, id: string): (m: Option<map<string, CharHandle>>)
    reads st`characteristics
    ensures m.Some? <==> id in st.characteristics
    ensures m.Some? ==> m.value == st.characteristics[id]
  {
    if id in st.characteristics then Some(st.characteristics[id]) else None
  }

  /** How `writeAsync` settles: it resolves, or it rejects (with an `Error` message or with something else). */
  datatype WriteOutcome = WriteOk | WriteThrew(message: Option<string>)

  /** The handle a real write goes to, when the device has a characteristic map that holds one. */
  function WriteHandle(chars: Option<map<string, CharHandle>>, uuid: string): (h: Option<CharHandle>)
    ensures h.Some? ==> chars.Some? && h.value in chars.value.Values
    ensures chars.Some? ==> h == LookupForWrite(chars.value, uuid)
  {
    if chars.None? then None else LookupForWrite(chars.value, uuid)
  }

  /**
   * `success` and `response` of the log entry a write to a connected device
   * appends: a mock write always succeeds; a real one succeeds exactly when
   * the characteristic is found and `writeAsync` resolves.
   */
  function WriteReport(mock: bool, chars: Option<map<string, CharHandle>>, uuid: string, outcome: WriteOutcome)
    : (r: (bool, string))
    ensures r.0 <==> mock || (WriteHandle(chars, uuid).Some? && outcome.WriteOk?)
    ensures r.0 ==> r.1 == (if mock then "OK (mock)" else "OK")
    ensures !mock && chars.None? ==> r.1 == "No characteristics found"
    ensures !mock && chars.Some? && WriteHandle(chars, uuid).None? ==> r.1 == "Characteristic " + uuid + " not found"
    ensures !mock && WriteHandle(chars, uuid).Some? && outcome.WriteThrew? ==> r.1 == outcome.message.GetOr("Write failed")
  {
    if mock then (true, "OK (mock)")
    else if chars.None? then (false, "No characteristics found")
    else
      match LookupForWrite(chars.value, uuid)
      case None => (false, "Characteristic " + uuid + " not found")
      case Some(_) =>
        match outcome
        case WriteOk => (true, "OK")
        case WriteThrew(m) => (false, m.GetOr("Write failed"))
  }

  /**
   * The adapter writes a write hands over: one, of the value with white
   * space removed and decoded as hex, exactly when a real write finds its
   * characteristic; without response when the characteristic allows it.
   */
  function RadioWritesFor(mock: bool, chars: Option<map<string, CharHandle>>, id: string, uuid: string, value: string)
    : (ws: seq<RadioWrite>)
    ensures |ws| <= 1
    ensures |ws| == 1 <==> !mock && WriteHandle(chars, uuid).Some?
    ensures |ws| == 1 ==> (
      ws[0].deviceId == id && ws[0].uuid == WriteHandle(chars, uuid).value.uuid
      && ws[0].bytes == DecodeHex(StripSpaces(value))
      && (ws[0].withoutResponse <==> "writeWithoutResponse" in WriteHandle(chars, uuid).value.properties))
  {
    var h := WriteHandle(chars, uuid);
    if mock || h.None? then []
    else [RadioWrite(id, h.value.uuid, DecodeHex(StripSpaces(value)), "writeWithoutResponse" in h.value.properties)]
  }

  /**
   * `writeCharacteristic`: an unknown or disconnected device is an error and
   * nothing is logged; otherwise exactly one log entry is appended, and a
   * `device_updated` event follows exactly when the write succeeded.
   */
  method WriteCharacteristic(st: BleState, deviceId: string, uuid: string, value: string,
                             logId: string, now: int, outcome: WriteOutcome)
    returns (r: Result<bool>)
    modifies st`commandLog, st`events, st`radioWrites
    ensures deviceId !in old(st.devices) ==> r == Err("Device not found: " + deviceId)
    ensures deviceId in old(st.devices) && !old(st.devices)[deviceId].connected ==> r == Err("Device not connected")
    ensures r.Err? ==> (
      st.commandLog == old(st.commandLog) && st.events == old(st.events)
      && st.radioWrites == old(st.radioWrites))
    ensures Connected(old(st.devices), deviceId) ==> (
      var rep := WriteReport(st.isMockMode, CharsOf(st, deviceId), uuid, outcome);
      r == Ok(rep.0)
      && st.commandLog == old(st.commandLog) + [LogEntry(logId, deviceId, now, uuid, value, rep.0, Some(rep.1))]
      && st.events == old(st.events) + (if rep.0 then [DeviceUpdated(deviceId)] else [])
      && st.radioWrites == old(st.radioWrites) + RadioWritesFor(st.isMockMode, CharsOf(st, deviceId), deviceId, uuid, value))
  {
    if deviceId !in st.devices {
      return Err("Device not found: " + deviceId);
    }
    if !st.devices[deviceId].connected {
      return Err("Device not connected");
    }
    var entry := LogEntry(logId, deviceId, now, uuid, value, false, None);
    if st.isMockMode {
      entry := entry.(success := true, response := Some("OK (mock)"));
      st.commandLog := st.commandLog + [entry];
      st.EmitEvent(DeviceUpdated(deviceId));
      return Ok(true);
    }
    if deviceId !in st.characteristics {
      entry := entry.(response := Some("No characteristics found"));
      st.commandLog := st.commandLog + [entry];
      return Ok(false);
    }
    var h := LookupForWrite(st.characteristics[deviceId], uuid);
    if h.None? {
      entry := entry.(response := Some("Characteristic " + uuid + " not found"));
      st.commandLog := st.commandLog + [entry];
      return Ok(false);
    }
    var buffer := DecodeHex(StripSpaces(value));
    var withoutResponse := "writeWithoutResponse" in h.value.properties;
    st.radioWrites := st.radioWrites + [RadioWrite(deviceId, h.value.uuid, buffer, withoutResponse)];
    match outcome
    case WriteOk =>
      entry := entry.(success := true, response := Some("OK"));
      st.commandLog := st.commandLog + [entry];
      st.EmitEvent(DeviceUpdated(deviceId));
      r := Ok(true);
    case WriteThrew(m) =>
      entry := entry.(response := Some(m.GetOr("Write failed")));
      st.commandLog := st.commandLog + [entry];
      r := Ok(false);
  }

  // -------------------------------------------------------------------- reads

  /** How `readAsync` settles: it resolves with the bytes read, or it rejects. */
  datatype ReadOutcome = ReadData(bytes: seq<byte>) | ReadThrew

  /** The handle a real read or subscription goes to. */
  function ReadHandle(chars: Option<map<string, CharHandle>>, uuid: string): (h: Option<CharHandle>)
    ensures h.Some? ==> chars.Some? && h.value in chars.value.Values
    ensures chars.Some? ==> h == LookupForRead(chars.value, uuid)
  {
    if chars.None? then None else LookupForRead(chars.value, uuid)
  }

  /**
   * `readCharacteristic`: errors for an unknown or disconnected device; the
   * fixed mock value in mock mode; otherwise the bytes read as lower-case
   * hex, or `null` when there is no map, no such characteristic, or the read
   * rejects.
   */
  function ReadCharacteristic(st: BleState, deviceId: string, uuid: string, outcome: ReadOutcome)
    : (r: Result<Option<string>>)
    reads st`devices, st`isMockMode, st`characteristics
    ensures deviceId !in st.devices ==> r == Err("Device not found: " + deviceId)
    ensures deviceId in st.devices && !st.devices[deviceId].connected ==> r == Err("Device not connected")
    ensures Connected(st.devices, deviceId) ==> r.Ok?
    ensures Connected(st.devices, deviceId) && st.isMockMode ==> r == Ok(Some("0100640032"))
    ensures Connected(st.devices, deviceId) && !st.isMockMode ==>
      (r.value.Some? <==> ReadHandle(CharsOf(st, deviceId), uuid).Some? && outcome.ReadData?)
    ensures r.Ok? && r.value.Some? ==> IsHexString(r.value.value)
    ensures r.Ok? && r.value.Some? && !st.isMockMode ==> outcome.ReadData? && r.value.value == EncodeHex(outcome.bytes)
  {
    if deviceId !in st.devices then Err("Device not found: " + deviceId)
    else if !st.devices[deviceId].connected then Err("Device not connected")
    else if st.isMockMode then Ok(Some("0100640032"))
    else if ReadHandle(CharsOf(st, deviceId), uuid).None? then Ok(None)
    else
      match outcome
      case ReadData(bytes) => Ok(Some(EncodeHex(bytes)))
      case ReadThrew => Ok(None)
  }

  // ------------------------------------------------------------ notifications

  /** The characteristic supports notifications: `notify` or `indicate`. */
  predicate Notifies(h: CharHandle) {
    "notify" in h.properties || "indicate" in h.properties
  }

  /**
   * `subscribeToNotifications`, given whether `subscribeAsync` resolves: a
   * `data` handler is installed on every real characteristic that
   * notifies, and the call reports whether the subscription went through.
   */
  method SubscribeToNotifications(st: BleState, deviceId: string, uuid: string, subscribeOk: bool)
    returns (r: Result<bool>)
    modifies st`listeners
    ensures deviceId !in st.devices ==> r == Err("Device not found: " + deviceId)
    ensures deviceId in st.devices && !st.devices[deviceId].connected ==> r == Err("Device not connected")
    ensures Connected(st.devices, deviceId) && st.isMockMode ==> r == Ok(true)
    ensures Connected(st.devices, deviceId) && !st.isMockMode ==> (
      var h := ReadHandle(CharsOf(st, deviceId), uuid);
      (r == Ok(true) <==> h.Some? && Notifies(h.value) && subscribeOk)
      && r.Ok?
      && (h.Some? && Notifies(h.value) ==> st.listeners == old(st.listeners) + [(deviceId, uuid)]))
    ensures !(Connected(st.devices, deviceId) && !st.isMockMode
              && ReadHandle(CharsOf(st, deviceId), uuid).Some?
              && Notifies(ReadHandle(CharsOf(st, deviceId), uuid).value))
      ==> st.listeners == old(st.listeners)
  {
    if deviceId !in st.devices {
      return Err("Device not found: " + deviceId);
    }
    if !st.devices[deviceId].connected {
      return Err("Device not connected");
    }
    if st.isMockMode {
      return Ok(true);
    }
    if deviceId !in st.characteristics {
      return Ok(false);
    }
    var h := LookupForRead(st.characteristics[deviceId], uuid);
    if h.None? {
      return Ok(false);
    }
    if !Notifies(h.value) {
      return Ok(false);
    }
    st.listeners := st.listeners + [(deviceId, uuid)];
    r := Ok(subscribeOk);
  }

  /** `log.findLast(p)`: the index of the last entry that satisfies `p`. */
  function FindLast(log: seq<LogEntry>, p: LogEntry -> bool): (i: Option<nat>)
    ensures i.Some? ==> (
      i.value < |log| && p(log[i.value])
      && forall j :: i.value < j < |log| ==> !p(log[j]))
    ensures i.None? ==> forall j :: 0 <= j < |log| ==> !p(log[j])
  {
    if log == [] then None
    else if p(log[|log| - 1]) then Some(|log| - 1)
    else FindLast(log[..|log| - 1], p)
  }

  /**
   * The filter of the notification handler as written: `&&` binds tighter
   * than `||`, so any device's `a040` entry matches.
   */
  predicate NotificationMatchesAsWritten(l: LogEntry, deviceId: string) {
    (l.deviceId == deviceId && l.characteristic == "a044") || l.characteristic == "a040"
  }

  /** The filter as intended: the notifying device's own `a044` or `a040` entry. */
  predicate NotificationMatches(l: LogEntry, deviceId: string) {
    l.deviceId == deviceId && (l.characteristic == "a044" || l.characteristic == "a040")
  }

  /** A notification from one device rewrites the response of another device's write. */
  lemma NotificationCrossTalk()
    ensures var log := [LogEntry("1", "lamp-b", 0, "a040", "55aa01080501f1", true, Some("OK"))];
      FindLast(log, l => NotificationMatchesAsWritten(l, "lamp-a")) == Some(0)
      && log[0].deviceId != "lamp-a"
      && FindLast(log, l => NotificationMatches(l, "lamp-a")) == None
  {
    var log := [LogEntry("1", "lamp-b", 0, "a040", "55aa01080501f1", true, Some("OK"))];
    assert log[..0] == [];
  }

  /** With the intended filter the entry found always belongs to the notifying device. */
  lemma NotificationStaysOnDevice(log: seq<LogEntry>, deviceId: string)
    ensures var i := FindLast(log, l => NotificationMatches(l, deviceId));
      i.Some? ==> log[i.value].deviceId == deviceId && log[i.value].characteristic in {"a044", "a040"}
    ensures (forall j :: 0 <= j < |log| ==> log[j].deviceId != deviceId)
      ==> FindLast(log, l => NotificationMatches(l, deviceId)).None?
  {
  }

  /**
   * The `data` handler of a subscription: a `device_updated` event, and the
   * response of the device's last `a044`/`a040` entry becomes the
   * notification's hex. No other entry changes.
   */
  method OnNotification(st: BleState, deviceId: string, uuid: string, data: seq<byte>)
    requires (deviceId, uuid) in st.listeners
    modifies st`events, st`commandLog
    ensures st.events == old(st.events) + [DeviceUpdated(deviceId)]
    ensures var i := FindLast(old(st.commandLog), l => NotificationMatches(l, deviceId));
      (i.None? ==> st.commandLog == old(st.commandLog))
      && (i.Some? ==> (
            st.commandLog
            == old(st.commandLog)[i.value := old(st.commandLog)[i.value].(response := Some(EncodeHex(data)))]))
    ensures |st.commandLog| == |old(st.commandLog)|
    ensures forall j :: (0 <= j < |st.commandLog| && st.commandLog[j].deviceId != deviceId
      ==> st.commandLog[j] == old(st.commandLog)[j])
  {
    var hex := EncodeHex(data);
    st.EmitEvent(DeviceUpdated(deviceId));
    var last := FindLast(st.commandLog, l => NotificationMatches(l, deviceId));
    if last.Some? {
      st.commandLog := st.commandLog[last.value := st.commandLog[last.value].(response := Some(hex))];
    }
  }

  // -------------------------------------------------------------- light state

  /**
   * What `getLightState` returns: only a real, connected device whose status
   * profile is iLink and whose status read returns a status frame yields
   * fields; every failure on the way is an empty state.
   */
  function StatusRead(st: BleState, s: DeviceSetting, deviceId: string, outcome: ReadOutcome): (r: Record)
    reads st`devices, st`isMockMode, st`characteristics
    ensures Distinct(r)
    ensures r != [] ==> (
      Connected(st.devices, deviceId) && !st.isMockMode && outcome.ReadData?
      && StatusProfile(s, st.devices[deviceId]).Some?
      && StatusProfile(s, st.devices[deviceId]).value.encoding == ILink55aa)
    ensures r != [] ==> (
      |r| == 3 && r[0] == Power(true) && r[1].Brightness? && 1 <= r[1].level <= 100
      && r[2].Color? && ByteChannels(r[2].rgb))
  {
    if deviceId !in st.devices then []
    else
      var p := StatusProfile(s, st.devices[deviceId]);
      if p.None? || p.value.statusChar.None? then []
      else StatusOfRead(p.value, ReadCharacteristic(st, deviceId, p.value.statusChar.value, outcome))
  }

  /**
   * The last step of `getLightState`: a read that yields a non-empty value
   * under an iLink profile is parsed as a status frame; anything else is an
   * empty state.
   */
  function StatusOfRead(p: DeviceProfile, hex: Result<Option<string>>): (r: Record)
    requires hex.Ok? && hex.value.Some? ==> IsHexString(hex.value.value)
    ensures Distinct(r)
    ensures r != [] ==> (
      p.encoding == ILink55aa && hex.Ok? && hex.value.Some? && hex.value.value != "0100640032"
      && r == ParseILinkStatus(hex.value.value))
    ensures r != [] ==> (
      |r| == 3 && r[0] == Power(true) && r[1].Brightness? && 1 <= r[1].level <= 100
      && r[2].Color? && ByteChannels(r[2].rgb))
  {
    if hex.Err? || hex.value.None? || hex.value.value == "" || p.encoding != ILink55aa then []
    else
      MockReadHasNoStatus();
      ParseILinkStatus(hex.value.value)
  }

  /** In mock mode the status read never yields anything: the mock value is no status frame. */
  lemma MockModeHasNoState(st: BleState, s: DeviceSetting, deviceId: string, outcome: ReadOutcome)
    requires st.isMockMode
    ensures StatusRead(st, s, deviceId, outcome) == []
  {
  }

  /**
   * A status frame that a real iLink lamp sends back from `a042` is reported
   * field by field: on, its brightness and its colour.
   */
  lemma StatusReadOfFrame(st: BleState, deviceId: string, r: byte, g: byte, b: byte, raw: byte, rest: string)
    requires Connected(st.devices, deviceId) && !st.isMockMode
    requires deviceId in st.characteristics && "a042" in st.characteristics[deviceId]
    requires CanonicalData(EncodeHex([r, g, b, raw]) + rest)
    ensures ValidCid("8815")
    ensures StatusRead(st, NoSettings.(profileId := Some("ilink")), deviceId,
        ReadData(DecodeHex(ILinkFrame("8815", EncodeHex([r, g, b, raw]) + rest))))
      == [Power(true), Brightness(StatusLevel(raw)), Color(RGB(r, g, b))]
  {
    var data := EncodeHex([r, g, b, raw]) + rest;
    assert ValidCid("8815");
    var frame := ILinkFrame("8815", data);
    FrameSurvivesAdapter(data);
    StatusRoundTrip(r, g, b, raw, rest);
    var bytes := DecodeHex(frame);
    assert bytes != [];
    StatusReadOfBytes(st, deviceId, bytes);
  }

  /** With the iLink profile configured, the status is parsed from whatever `a042` returns. */
  lemma StatusReadOfBytes(st: BleState, deviceId: string, bytes: seq<byte>)
    requires Connected(st.devices, deviceId) && !st.isMockMode
    requires deviceId in st.characteristics && "a042" in st.characteristics[deviceId]
    requires bytes != []
    ensures StatusRead(st, NoSettings.(profileId := Some("ilink")), deviceId, ReadData(bytes))
      == ParseILinkStatus(EncodeHex(bytes))
  {
    IlinkStatusProfile(st.devices[deviceId]);
    StatusCharRead(st, deviceId, bytes);
  }

  /** A setting that names the iLink profile reads its status from `a042` as an iLink frame. */
  lemma IlinkStatusProfile(d: Device)
    ensures StatusProfile(NoSettings.(profileId := Some("ilink")), d)
      == Some(DeviceProfile("ilink", "iLink (55AA)", "a040", Some("a042"), ILink55aa))
  {
    CatalogEntries();
  }

  /** Reading `a042` from a connected device that has it yields the bytes as hex. */
  lemma StatusCharRead(st: BleState, deviceId: string, bytes: seq<byte>)
    requires Connected(st.devices, deviceId) && !st.isMockMode
    requires deviceId in st.characteristics && "a042" in st.characteristics[deviceId]
    ensures ReadCharacteristic(st, deviceId, "a042", ReadData(bytes)) == Ok(Some(EncodeHex(bytes)))
  {
    var chars := st.characteristics[deviceId];
    assert CharsOf(st, deviceId) == Some(chars);
    assert LookupForRead(chars, "a042").Some?;
  }

  /** A canonical iLink frame comes back unchanged from a read: its bytes print as the frame. */
  lemma FrameSurvivesAdapter(data: string)
    requires CanonicalData(data)
    ensures ValidCid("8815") && EncodeHex(DecodeHex(ILinkFrame("8815", data))) == ILinkFrame("8815", data)
  {
    assert ValidCid("8815") && IsLowerHex("8815");
    ILinkFrameBytes("8815", data);
    DecodeEncode(ILinkBytes(CidHi("8815"), CidLo("8815"), DecodeHex(data)));
  }

  /**
   * `getLightState`: the status read, persisted as the device's last state
   * when it yields fields; an empty result leaves the store as it was.
   */
  method GetLightState(st: BleState, store: SettingsStore, deviceId: string, outcome: ReadOutcome)
    returns (r: Record)
    modifies store`entries, store`dbWrites, store`lastStateCalls
    ensures r == StatusRead(st, old(store.GetDeviceSettings(deviceId)), deviceId, outcome)
    ensures r == [] ==> (
      store.entries == old(store.entries) && store.dbWrites == old(store.dbWrites)
      && store.lastStateCalls == old(store.lastStateCalls))
    ensures r != [] ==> (
      var s := old(store.GetDeviceSettings(deviceId));
      store.entries == old(store.entries)[deviceId := s.(lastState := Some(NextLastState(s.lastState, r)))]
      && store.dbWrites == old(store.dbWrites) + (if Covers(s.lastState.GetOr([]), r) then 0 else 1)
      && store.lastStateCalls == old(store.lastStateCalls) + [(deviceId, r)])
  {
    ghost var s0 := store.GetDeviceSettings(deviceId);
    r := [];
    if deviceId !in st.devices {
      return;
    }
    var settings := store.GetDeviceSettings(deviceId);
    var profile := StatusProfile(settings, st.devices[deviceId]);
    if profile.None? || profile.value.statusChar.None? {
      return;
    }
    var hex := ReadCharacteristic(st, deviceId, profile.value.statusChar.value, outcome);
    if hex.Err? || hex.value.None? || hex.value.value == "" {
      return;
    }
    if profile.value.encoding == ILink55aa {
      r := ParseILinkStatus(hex.value.value);
      if r != [] {
        store.UpdateDeviceLastState(deviceId, r);
      }
    }
  }

  /**
   * Brightness written by the iLink encoder reads back one percent low at
   * most; a level of 0 or 1 scales to a status byte that reads as 0 and so
   * is reported as full brightness.
   */
  lemma BrightnessReadBack(v: int)
    requires 0 <= v <= 100
    ensures 0 <= ILinkBrightnessByte(v) < 256
    ensures v - 1 <= StatusBrightness(ILinkBrightnessByte(v)) <= v
    ensures v >= 2 ==> StatusLevel(ILinkBrightnessByte(v)) == StatusBrightness(ILinkBrightnessByte(v))
    ensures v <= 1 ==> StatusLevel(ILinkBrightnessByte(v)) == 100
  {
    var n: byte := ILinkBrightnessByte(v);
    var pct := StatusBrightness(n);
    if v < 100 {
      assert 20 * n <= 51 * v < 20 * (n + 1);
      assert 255 * pct <= 100 * n < 255 * (pct + 1);
      assert 51 * pct <= 20 * n;
      assert 20 * n < 51 * (pct + 1);
      assert pct <= v;
      assert pct >= v - 1;
      if v >= 2 {
        assert 20 * n > 51 * 2 - 20;
        assert pct >= 1;
      } else {
        assert n <= 2;
      }
    } else {
      assert n == 254;
      assert pct == 99;
    }
  }

  // ------------------------------------------------------------ light commands

  /**
   * The encoding switch of `sendLightCommand`: iLink frames come from
   * `encodeILinkCommand`, the other encodings from their own encoders.
   */
  method EncodeLightCommand(e: WireEncoding, command: Command) returns (frame: string)
    ensures frame == LightFrame(e, command)
    ensures frame == "" <==> !Encodes(e, command)
  {
    frame := "";
    match e {
      case ILink55aa =>
        match command {
          case PowerCmd(on) =>
            frame := EncodeILinkCommand("0805", if on then "01" else "00");
          case BrightnessCmd(v) =>
            frame := EncodeILinkCommand("0801", Hex2Signed(ILinkBrightnessByte(v)));
          case ColorCmd(c) =>
            frame := EncodeILinkCommand("0802", Hex2(c.r) + Hex2(c.g) + Hex2(c.b));
          case _ =>
        }
      case Triones =>
        frame := EncodeTriones(command);
      case Magic =>
        frame := EncodeMagicHome(command);
      case Raw =>
        match command {
          case PowerCmd(on) =>
            frame := if on then "01" else "00";
          case BrightnessCmd(v) =>
            frame := "02" + Hex2(RawBrightness(v));
          case _ =>
        }
    }
  }

  /**
   * `sendLightCommand`: an unknown device or a command the profile has no
   * frame for is refused with nothing written; otherwise the frame goes to
   * the target characteristic, and after a successful write exactly the
   * commanded field is persisted as the device's last state.
   */
  method SendLightCommand(st: BleState, store: SettingsStore, deviceId: string, command: Command,
                          logId: string, now: int, outcome: WriteOutcome)
    returns (r: Result<bool>)
    modifies st`commandLog, st`events, st`radioWrites, store`entries, store`dbWrites, store`lastStateCalls
    ensures deviceId !in st.devices ==> r == Ok(false)
    ensures deviceId in st.devices ==> (
      var d := st.devices[deviceId];
      var s := old(store.GetDeviceSettings(deviceId));
      var p := ResolveProfile(s, d);
      var frame := LightFrame(p.encoding, command);
      var target := TargetChar(s, p, d);
      var rep := WriteReport(st.isMockMode, CharsOf(st, deviceId), target, outcome);
      (frame == "" ==> r == Ok(false))
      && (frame != "" && !d.connected ==> r == Err("Device not connected"))
      && (frame != "" && d.connected ==>
            r == Ok(rep.0)
            && st.commandLog == old(st.commandLog) + [LogEntry(logId, deviceId, now, target, frame, rep.0, Some(rep.1))]
            && st.events == old(st.events) + (if rep.0 then [DeviceUpdated(deviceId)] else [])
            && st.radioWrites == old(st.radioWrites)
                 + RadioWritesFor(st.isMockMode, CharsOf(st, deviceId), deviceId, target, frame))
      && (r == Ok(true) && StateUpdateFor(command) != [] ==>
            store.entries == old(store.entries)[deviceId :=
              s.(lastState := Some(NextLastState(s.lastState, StateUpdateFor(command))))]
            && store.dbWrites == old(store.dbWrites) + (if Covers(s.lastState.GetOr([]), StateUpdateFor(command)) then 0 else 1)
            && store.lastStateCalls == old(store.lastStateCalls) + [(deviceId, StateUpdateFor(command))]))
    ensures !(r == Ok(true) && StateUpdateFor(command) != []) ==>
      store.entries == old(store.entries) && store.dbWrites == old(store.dbWrites)
      && store.lastStateCalls == old(store.lastStateCalls)
    ensures deviceId !in st.devices
        || LightFrame(ResolveProfile(old(store.GetDeviceSettings(deviceId)), st.devices[deviceId]).encoding, command) == ""
        || !st.devices[deviceId].connected
      ==> st.commandLog == old(st.commandLog) && st.events == old(st.events) && st.radioWrites == old(st.radioWrites)
  {
    if deviceId !in st.devices {
      return Ok(false);
    }
    var device := st.devices[deviceId];
    var settings := store.GetDeviceSettings(deviceId);
    var profile := ResolveProfile(settings, device);
    var target := TargetChar(settings, profile, device);
    var frame := EncodeLightCommand(profile.encoding, command);
    if frame == "" {
      return Ok(false);
    }
    r := WriteCharacteristic(st, deviceId, target, frame, logId, now, outcome);
    var update := StateUpdateFor(command);
    if r == Ok(true) && update != [] {
      store.UpdateDeviceLastState(deviceId, update);
    }
  }
}
