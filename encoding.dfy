/**
 * Vendor frame encoders (src/services/ble/encoding.ts).
 *
 * iLink frame: `55aa | len | cid (2 bytes) | data | checksum`, where the
 * checksum makes len + cid bytes + data bytes + checksum ≡ 0 (mod 256).
 */
module Encoding {
  import opened Hex
  import opened Types

  /** Sum of the byte values, accumulated from the front as the `for` loop does. */
  function SumBytes(bs: seq<byte>): nat {
    if bs == [] then 0 else SumBytes(bs[..|bs| - 1]) + bs[|bs| - 1]
  }

  lemma {:induction false} SumBytesAppend(a: seq<byte>, b: seq<byte>)
    ensures SumBytes(a + b) == SumBytes(a) + SumBytes(b)
    decreases |b|
  {
    if b != [] {
      assert (a + b)[..|a + b| - 1] == a + b[..|b| - 1];
      SumBytesAppend(a, b[..|b| - 1]);
    } else {
      assert a + b == a;
    }
  }

  lemma SumBytesSingle(b: byte)
    ensures SumBytes([b]) == b
  {
    assert [b][..0] == [];
  }

  /** `(256 - (sum % 256)) % 256`: the byte that brings the frame sum to 0 mod 256. */
  function ILinkChecksum(sum: nat): (cs: byte)
    ensures (sum + cs) % 256 == 0
  {
    ChecksumCancels(sum);
    (256 - sum % 256) % 256
  }

  lemma ChecksumCancels(sum: nat)
    ensures 0 <= (256 - sum % 256) % 256 < 256
    ensures (sum + (256 - sum % 256) % 256) % 256 == 0
  {
    var q, r := sum / 256, sum % 256;
    assert sum == 256 * q + r;
    if r == 0 {
      assert (256 - r) % 256 == 0;
    } else {
      assert (256 - r) % 256 == 256 - r;
      assert sum + (256 - r) == 256 * (q + 1);
    }
  }

  /** The command id must start with four hex digits (`parseInt` of each half). */
  predicate ValidCid(cid: string) {
    |cid| >= 4 && forall i :: 0 <= i < 4 ==> IsHexDigit(cid[i])
  }

  /** `parseInt` of two hex digits. */
  lemma HexValuePair(s: string)
    requires |s| == 2 && IsHexString(s)
    ensures HexValue(s) == 16 * DigitValue(s[0]) + DigitValue(s[1])
  {
    var p := s[..1];
    assert p[..0] == [];
    assert HexValue(p) == DigitValue(s[0]);
    assert s[..|s| - 1] == p;
  }

  /** `parseInt(cid.substring(0, 2), 16)` */
  function CidHi(cid: string): (hi: byte)
    requires ValidCid(cid)
    ensures hi == 16 * DigitValue(cid[0]) + DigitValue(cid[1])
  {
    var s := cid[..2];
    HexValuePair(s);
    HexValue(s)
  }

  /** `parseInt(cid.substring(2, 4), 16)` */
  function CidLo(cid: string): (lo: byte)
    requires ValidCid(cid)
    ensures lo == 16 * DigitValue(cid[2]) + DigitValue(cid[3])
  {
    var s := cid[2..4];
    HexValuePair(s);
    HexValue(s)
  }

  /** The sum the checksum has to cancel: length byte, both cid bytes and the data bytes. */
  function FrameSum(cid: string, data: string): nat
    requires ValidCid(cid)
  {
    |DecodeHex(data)| + CidHi(cid) + CidLo(cid) + SumBytes(DecodeHex(data))
  }

  /** The frame `encodeILinkCommand(cid, data)` returns. */
  function ILinkFrame(cid: string, data: string): string
    requires ValidCid(cid)
  {
    "55aa" + Hex2(|DecodeHex(data)|) + cid + data + Hex2(ILinkChecksum(FrameSum(cid, data)))
  }

  /** `encodeILinkCommand`: sums the bytes in a loop, then lays the frame out. */
  method EncodeILinkCommand(cid: string, data: string) returns (frame: string)
    requires ValidCid(cid)
    ensures frame == ILinkFrame(cid, data)
  {
    var dataBuf := DecodeHex(data);
    var len := |dataBuf|;
    var cidHi := CidHi(cid);
    var cidLo := CidLo(cid);
    var sum := len + cidHi + cidLo;
    for i := 0 to |dataBuf|
      invariant sum == len + cidHi + cidLo + SumBytes(dataBuf[..i])
    {
      assert dataBuf[..i + 1][..i] == dataBuf[..i];
      sum := sum + dataBuf[i];
    }
    assert dataBuf[..|dataBuf|] == dataBuf;
    var checksum := (256 - sum % 256) % 256;
    frame := "55aa" + Hex2(len) + cid + data + Hex2(checksum);
  }

  /** Canonical iLink data: lower-case hex, whole bytes, at most 255 of them. */
  predicate CanonicalData(data: string) {
    IsLowerHex(data) && |data| % 2 == 0 && |data| / 2 < 256
  }

  /** A frame, read as bytes, sums to 0 mod 256 after its two header bytes. */
  predicate ChecksumOk(frame: seq<byte>) {
    |frame| >= 3 && SumBytes(frame[2..]) % 256 == 0
  }

  /** The bytes of an iLink frame with the given length, cid and data bytes. */
  function ILinkBytes(cidHi: byte, cidLo: byte, bytes: seq<byte>): seq<byte>
    requires |bytes| < 256
  {
    [0x55, 0xaa, |bytes|] + [cidHi, cidLo] + bytes
      + [ILinkChecksum(|bytes| + cidHi + cidLo + SumBytes(bytes))]
  }

  /** Every frame laid out this way passes the receiver's checksum test. */
  lemma ILinkBytesChecksum(cidHi: byte, cidLo: byte, bytes: seq<byte>)
    requires |bytes| < 256
    ensures ChecksumOk(ILinkBytes(cidHi, cidLo, bytes))
  {
    var n: byte := |bytes|;
    var cs := ILinkChecksum(n + cidHi + cidLo + SumBytes(bytes));
    var tail := ILinkBytes(cidHi, cidLo, bytes)[2..];
    assert tail == [n, cidHi, cidLo] + (bytes + [cs]);
    SumBytesAppend([n, cidHi, cidLo], bytes + [cs]);
    SumBytesAppend(bytes, [cs]);
    SumBytesSingle(n);
    SumBytesAppend([n], [cidHi]);
    SumBytesSingle(cidHi);
    SumBytesAppend([n, cidHi], [cidLo]);
    SumBytesSingle(cidLo);
    SumBytesSingle(cs);
    assert [n] + [cidHi] == [n, cidHi];
    assert [n, cidHi] + [cidLo] == [n, cidHi, cidLo];
  }

  /**
   * A frame built from canonical input is the hex text of those bytes:
   * header, length byte, the two cid bytes, the data bytes and the checksum.
   */
  lemma ILinkFrameBytes(cid: string, data: string)
    requires ValidCid(cid) && |cid| == 4 && IsLowerHex(cid) && CanonicalData(data)
    ensures |DecodeHex(data)| == |data| / 2
    ensures ILinkFrame(cid, data) == EncodeHex(ILinkBytes(CidHi(cid), CidLo(cid), DecodeHex(data)))
    ensures DecodeHex(ILinkFrame(cid, data)) == ILinkBytes(CidHi(cid), CidLo(cid), DecodeHex(data))
  {
    var bytes := DecodeHex(data);
    DecodeHexLength(data);
    var hi, lo := CidHi(cid), CidLo(cid);
    var cs := ILinkChecksum(FrameSum(cid, data));
    EncodeHexOfCid(cid);
    EncodeDecode(data);
    FrameHex(|bytes|, hi, lo, bytes, cs);
    assert ILinkBytes(hi, lo, bytes) == [0x55, 0xaa, |bytes|] + [hi, lo] + bytes + [cs];
    DecodeEncode(ILinkBytes(hi, lo, bytes));
  }

  /** Hex text of the frame bytes, part by part. */
  lemma FrameHex(n: byte, hi: byte, lo: byte, bytes: seq<byte>, cs: byte)
    ensures EncodeHex([0x55, 0xaa, n] + [hi, lo] + bytes + [cs])
      == "55aa" + Hex2(n) + EncodeHex([hi, lo]) + EncodeHex(bytes) + Hex2(cs)
  {
    EncodeHex4([0x55, 0xaa, n], [hi, lo], bytes, [cs]);
    FrameHexParts(n, hi, lo, bytes, cs);
  }

  lemma EncodeHex4(a: seq<byte>, b: seq<byte>, c: seq<byte>, d: seq<byte>)
    ensures EncodeHex(a + b + c + d) == EncodeHex(a) + EncodeHex(b) + EncodeHex(c) + EncodeHex(d)
  {
    EncodeHexAppend(a, b);
    EncodeHexAppend(a + b, c);
    EncodeHexAppend(a + b + c, d);
  }

  lemma FrameHexParts(n: byte, hi: byte, lo: byte, bytes: seq<byte>, cs: byte)
    ensures EncodeHex([0x55, 0xaa, n]) + EncodeHex([hi, lo]) + EncodeHex(bytes) + EncodeHex([cs])
      == "55aa" + Hex2(n) + EncodeHex([hi, lo]) + EncodeHex(bytes) + Hex2(cs)
  {
    HeaderHex(n);
    assert EncodeHex([cs]) == Hex2(cs) + EncodeHex([]);
  }

  lemma HeaderHex(n: byte)
    ensures EncodeHex([0x55, 0xaa, n]) == "55aa" + Hex2(n)
  {
    Hex2Byte(0x55);
    Hex2Byte(0xaa);
    Hex2Byte(n);
    assert EncodeHex([n]) == Hex2(n) + EncodeHex([]);
    assert EncodeHex([0xaa, n]) == Hex2(0xaa) + EncodeHex([n]);
    assert EncodeHex([0x55, 0xaa, n]) == Hex2(0x55) + EncodeHex([0xaa, n]);
  }

  lemma HexPairOfDigits(c0: char, c1: char, v: byte)
    requires IsLowerHexDigit(c0) && IsLowerHexDigit(c1)
    requires v == 16 * DigitValue(c0) + DigitValue(c1)
    ensures Hex2(v) == [c0, c1]
  {
    DigitOfValue(c0);
    DigitOfValue(c1);
    Hex2Byte(v);
  }

  lemma EncodeHexOfCid(cid: string)
    requires ValidCid(cid) && |cid| == 4 && IsLowerHex(cid)
    ensures EncodeHex([CidHi(cid), CidLo(cid)]) == cid
  {
    var hi, lo := CidHi(cid), CidLo(cid);
    HexPairOfDigits(cid[0], cid[1], hi);
    HexPairOfDigits(cid[2], cid[3], lo);
    assert Hex2(hi) == cid[..2];
    assert Hex2(lo) == cid[2..4];
    assert EncodeHex([hi, lo]) == Hex2(hi) + EncodeHex([lo]);
    assert EncodeHex([lo]) == Hex2(lo) + EncodeHex([]);
    assert cid == cid[..2] + cid[2..4];
  }

  /** Frames the hub sends and that the lab presets list for the iLink protocol. */
  lemma ILinkVectors()
    ensures ILinkFrame("0805", "01") == "55aa01080501f1"
    ensures ILinkFrame("0805", "00") == "55aa01080500f2"
    ensures ILinkFrame("0802", "ff0000") == "55aa030802ff0000f4"
    ensures ILinkFrame("0808", "f8") == "55aa010808f8f7"
  {
    PowerOnVector();
    PowerOffVector();
    ColorVector();
    WhiteHighVector();
  }

  lemma PowerOnVector()
    ensures ILinkFrame("0805", "01") == "55aa01080501f1"
  {
    OneByteVector("0805", "01", 0x01, 0xf1);
    assert [Digit(15), Digit(1)] == "f1";
  }

  lemma PowerOffVector()
    ensures ILinkFrame("0805", "00") == "55aa01080500f2"
  {
    OneByteVector("0805", "00", 0x00, 0xf2);
    assert [Digit(15), Digit(2)] == "f2";
  }

  lemma WhiteHighVector()
    ensures ILinkFrame("0808", "f8") == "55aa010808f8f7"
  {
    OneByteVector("0808", "f8", 0xf8, 0xf7);
    assert [Digit(15), Digit(7)] == "f7";
  }

  /** The lab's fan presets (command id 0501) carry checksums this encoder reproduces. */
  lemma FanSpeed1Vector()
    ensures ILinkFrame("0501", "01") == "55aa01050101f8"
  {
    OneByteVector("0501", "01", 0x01, 0xf8);
    assert [Digit(15), Digit(8)] == "f8";
  }

  lemma FanSpeed3Vector()
    ensures ILinkFrame("0501", "03") == "55aa01050103f6"
  {
    OneByteVector("0501", "03", 0x03, 0xf6);
    assert [Digit(15), Digit(6)] == "f6";
  }

  lemma FanOffVector()
    ensures ILinkFrame("0501", "00") == "55aa01050100f9"
  {
    OneByteVector("0501", "00", 0x00, 0xf9);
    assert [Digit(15), Digit(9)] == "f9";
  }

  lemma ColorVector()
    ensures ILinkFrame("0802", "ff0000") == "55aa030802ff0000f4"
  {
    RedPayload();
    ColorCid();
    ThreeByteVector("0802", "ff0000", 0xff, 0, 0, 0xf4);
    ChecksumDigits(0xf4, "f4");
    assert "55aa" + "03" + "0802" + "ff0000" + "f4" == "55aa030802ff0000f4";
  }

  lemma RedPayload()
    ensures DecodeHex("ff0000") == [0xff, 0, 0]
  {
    LiteralBytes3("ff0000", 0xff, 0, 0);
  }

  lemma ColorCid()
    ensures ValidCid("0802") && CidHi("0802") == 8 && CidLo("0802") == 2
  {
  }

  lemma ChecksumDigits(cs: byte, digits: string)
    requires |digits| == 2 && IsLowerHexDigit(digits[0]) && IsLowerHexDigit(digits[1])
    requires cs == 16 * DigitValue(digits[0]) + DigitValue(digits[1])
    ensures [Digit(cs / 16), Digit(cs % 16)] == digits
  {
    DigitOfValue(digits[0]);
    DigitOfValue(digits[1]);
  }

  /** The frame of a three-byte payload, with its checksum written out. */
  lemma ThreeByteVector(cid: string, data: string, x: byte, y: byte, z: byte, cs: byte)
    requires ValidCid(cid) && DecodeHex(data) == [x, y, z]
    requires cs == (256 - (3 + CidHi(cid) + CidLo(cid) + x + y + z) % 256) % 256
    ensures ILinkFrame(cid, data) == "55aa" + "03" + cid + data + [Digit(cs / 16), Digit(cs % 16)]
  {
    SumThree(x, y, z);
    assert FrameSum(cid, data) == 3 + CidHi(cid) + CidLo(cid) + x + y + z;
    assert ILinkChecksum(FrameSum(cid, data)) == cs;
    Hex2Byte(3);
    assert Hex2(3) == "03";
    Hex2Byte(cs);
  }

  lemma SumThree(x: byte, y: byte, z: byte)
    ensures SumBytes([x, y, z]) == x + y + z
  {
    SumBytesSingle(x);
    assert [x, y, z][..2] == [x, y];
    assert [x, y][..1] == [x];
  }

  lemma OneByteVector(cid: string, data: string, b: byte, cs: byte)
    requires ValidCid(cid) && |data| == 2 && IsHexString(data)
    requires b == 16 * DigitValue(data[0]) + DigitValue(data[1])
    requires cs == (256 - (1 + CidHi(cid) + CidLo(cid) + b) % 256) % 256
    ensures ILinkFrame(cid, data) == "55aa" + "01" + cid + data + [Digit(cs / 16), Digit(cs % 16)]
  {
    assert DecodeHex(data) == [b];
    SumBytesSingle(b);
    assert FrameSum(cid, data) == 1 + CidHi(cid) + CidLo(cid) + b;
    assert ILinkChecksum(FrameSum(cid, data)) == cs;
    Hex2Byte(1);
    assert Hex2(1) == "01";
    Hex2Byte(cs);
  }

  /** `encodeTrionesCommand` */
  function EncodeTriones(command: Command): (frame: string)
    ensures frame == "" <==> !(command.PowerCmd? || command.ColorCmd?)
  {
    match command
    case PowerCmd(on) => if on then "cc2333" else "cc2433"
    case ColorCmd(c) => "56" + Hex2(c.r) + Hex2(c.g) + Hex2(c.b) + "00f0aa"
    case _ => ""
  }

  /** The Triones power frames: `cc2333` switches on, `cc2433` off; on the wire `cc 23 33` and `cc 24 33`. */
  lemma TrionesPowerVector()
    ensures EncodeTriones(PowerCmd(true)) == "cc2333" && EncodeTriones(PowerCmd(false)) == "cc2433"
    ensures DecodeHex(EncodeTriones(PowerCmd(true))) == [0xcc, 0x23, 0x33]
    ensures DecodeHex(EncodeTriones(PowerCmd(false))) == [0xcc, 0x24, 0x33]
  {
  }

  /** Magic Home brightness byte: the level clamped to [0, 100], scaled to 0..255, floored. */
  function MagicBrightnessByte(level: int): (b: byte)
    ensures var c := if level < 0 then 0 else if level > 100 then 100 else level;
      100 * b <= 255 * c < 100 * (b + 1)
  {
    var c := if level < 0 then 0 else if level > 100 then 100 else level;
    c * 51 / 20
  }

  /** `encodeMagicHomeCommand` */
  function EncodeMagicHome(command: Command): (frame: string)
    ensures frame == "" <==> !(command.PowerCmd? || command.ColorCmd? || command.BrightnessCmd?)
  {
    match command
    case PowerCmd(on) => if on then "7e0404f00001ff00ef" else "7e0404000000ff00ef"
    case ColorCmd(c) => "7e070503" + Hex2(c.r) + Hex2(c.g) + Hex2(c.b) + "10ef"
    case BrightnessCmd(level) => "7e0401" + Hex2(MagicBrightnessByte(level)) + "000000ef"
    case _ => ""
  }

  /** The Magic Home power frames: `7e0404f00001ff00ef` switches on, `7e0404000000ff00ef` off. */
  lemma MagicHomePowerVector()
    ensures EncodeMagicHome(PowerCmd(true)) == "7e0404f00001ff00ef"
    ensures EncodeMagicHome(PowerCmd(false)) == "7e0404000000ff00ef"
  {
  }

  predicate ByteChannels(c: RGB) {
    c.r < 256 && c.g < 256 && c.b < 256
  }

  lemma ColorBytes(c: RGB)
    requires ByteChannels(c)
    ensures DecodeHex(Hex2(c.r) + Hex2(c.g) + Hex2(c.b)) == [c.r, c.g, c.b]
  {
    Hex2Byte(c.r);
    Hex2Byte(c.g);
    Hex2Byte(c.b);
    EncodeHexAppend([c.r], [c.g]);
    EncodeHexAppend([c.r, c.g], [c.b]);
    assert EncodeHex([c.r]) == Hex2(c.r);
    assert EncodeHex([c.g]) == Hex2(c.g);
    assert EncodeHex([c.b]) == Hex2(c.b);
    assert Hex2(c.r) + Hex2(c.g) + Hex2(c.b) == EncodeHex([c.r, c.g, c.b]);
    DecodeEncode([c.r, c.g, c.b]);
  }

  /** A colour's three channels print as three bytes when each fits in one. */
  lemma ColorHex(c: RGB)
    requires ByteChannels(c)
    ensures var mid := Hex2(c.r) + Hex2(c.g) + Hex2(c.b);
      |mid| == 6 && IsHexString(mid) && DecodeHex(mid) == [c.r, c.g, c.b]
  {
    ColorBytes(c);
  }

  /** Decoding `a + x + c` where each part is whole hex bytes. */
  lemma DecodeHex3(a: string, x: string, c: string)
    requires IsHexString(a) && |a| % 2 == 0 && IsHexString(x) && |x| % 2 == 0
    ensures DecodeHex(a + x + c) == DecodeHex(a) + DecodeHex(x) + DecodeHex(c)
  {
    assert IsHexString(a + x) by {
      forall i | 0 <= i < |a + x| ensures IsHexDigit((a + x)[i]) {
        if i < |a| { assert (a + x)[i] == a[i]; } else { assert (a + x)[i] == x[i - |a|]; }
      }
    }
    DecodeHexAppend(a + x, c);
    DecodeHexAppend(a, x);
  }

  /** The bytes of a Triones colour frame: each channel is one byte. */
  lemma TrionesColorBytes(c: RGB)
    requires ByteChannels(c)
    ensures DecodeHex(EncodeTriones(ColorCmd(c))) == [0x56, c.r, c.g, c.b, 0x00, 0xf0, 0xaa]
  {
    var mid := Hex2(c.r) + Hex2(c.g) + Hex2(c.b);
    ColorHex(c);
    TrionesColorHead();
    TrionesColorTail();
    assert EncodeTriones(ColorCmd(c)) == "56" + mid + "00f0aa";
    DecodeHex3("56", mid, "00f0aa");
    assert [0x56] + [c.r, c.g, c.b] + [0x00, 0xf0, 0xaa] == [0x56, c.r, c.g, c.b, 0x00, 0xf0, 0xaa];
  }

  lemma TrionesColorHead()
    ensures IsHexString("56") && DecodeHex("56") == [0x56]
  {
    assert "56"[2..] == "";
  }

  lemma TrionesColorTail()
    ensures DecodeHex("00f0aa") == [0x00, 0xf0, 0xaa]
  {
    LiteralBytes3("00f0aa", 0x00, 0xf0, 0xaa);
  }

  /** The bytes of a Magic Home colour frame: each channel is one byte. */
  lemma MagicHomeColorBytes(c: RGB)
    requires ByteChannels(c)
    ensures DecodeHex(EncodeMagicHome(ColorCmd(c)))
      == [0x7e, 0x07, 0x05, 0x03, c.r, c.g, c.b, 0x10, 0xef]
  {
    var mid := Hex2(c.r) + Hex2(c.g) + Hex2(c.b);
    ColorHex(c);
    MagicHomeColorHead();
    MagicHomeColorTail();
    assert EncodeMagicHome(ColorCmd(c)) == "7e070503" + mid + "10ef";
    DecodeHex3("7e070503", mid, "10ef");
    assert [0x7e, 0x07, 0x05, 0x03] + [c.r, c.g, c.b] + [0x10, 0xef]
      == [0x7e, 0x07, 0x05, 0x03, c.r, c.g, c.b, 0x10, 0xef];
  }

  lemma MagicHomeColorHead()
    ensures IsHexString("7e070503") && DecodeHex("7e070503") == [0x7e, 0x07, 0x05, 0x03]
  {
    LiteralBytes3("070503", 0x07, 0x05, 0x03);
    assert "7e070503"[2..] == "070503";
  }

  lemma MagicHomeColorTail()
    ensures DecodeHex("10ef") == [0x10, 0xef]
  {
    assert "10ef"[2..] == "ef";
    assert "ef"[2..] == "";
  }

  /** The bytes of a Magic Home brightness frame: one byte for the scaled level. */
  lemma MagicHomeBrightnessBytes(level: int)
    ensures DecodeHex(EncodeMagicHome(BrightnessCmd(level)))
      == [0x7e, 0x04, 0x01, MagicBrightnessByte(level), 0x00, 0x00, 0x00, 0xef]
  {
    var b := MagicBrightnessByte(level);
    Hex2Byte(b);
    DecodeHex2(b);
    MagicHomeBrightnessHead();
    MagicHomeBrightnessTrailer();
    assert EncodeMagicHome(BrightnessCmd(level)) == "7e0401" + Hex2(b) + "000000ef";
    DecodeHex3("7e0401", Hex2(b), "000000ef");
    assert [0x7e, 0x04, 0x01] + [b] + [0x00, 0x00, 0x00, 0xef] == [0x7e, 0x04, 0x01, b, 0x00, 0x00, 0x00, 0xef];
  }

  lemma MagicHomeBrightnessHead()
    ensures IsHexString("7e0401") && DecodeHex("7e0401") == [0x7e, 0x04, 0x01]
  {
    LiteralBytes3("7e0401", 0x7e, 0x04, 0x01);
  }

  lemma MagicHomeBrightnessTrailer()
    ensures DecodeHex("000000ef") == [0x00, 0x00, 0x00, 0xef]
  {
    LiteralBytes3("0000ef", 0x00, 0x00, 0xef);
    assert "000000ef"[2..] == "0000ef";
  }

  lemma DecodeHex2(b: byte)
    ensures DecodeHex(Hex2(b)) == [b]
  {
    Hex2Byte(b);
  }

  lemma LiteralBytes3(s: string, x: byte, y: byte, z: byte)
    requires |s| == 6 && IsHexString(s)
    requires x == 16 * DigitValue(s[0]) + DigitValue(s[1])
    requires y == 16 * DigitValue(s[2]) + DigitValue(s[3])
    requires z == 16 * DigitValue(s[4]) + DigitValue(s[5])
    ensures DecodeHex(s) == [x, y, z]
  {
    assert DecodeHex(s[4..]) == [z];
    assert DecodeHex(s[2..]) == [y, z];
  }

  /** Channels are never truncated: a channel above 255 widens its frame. */
  lemma WideChannelWidensFrame(c: RGB)
    requires c.r >= 256
    ensures |EncodeTriones(ColorCmd(c))| > 14
    ensures |EncodeMagicHome(ColorCmd(c))| > 18
  {
    Hex2Wide(c.r);
    assert |Hex2(c.g)| >= 2 && |Hex2(c.b)| >= 2;
  }
}
