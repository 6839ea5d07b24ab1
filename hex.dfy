/**
 * Hexadecimal text as the hub produces and consumes it: `Number#toString(16)`,
 * `padStart(2, '0')`, `parseInt(_, 16)`, `Buffer.from(_, 'hex')` and
 * `Buffer#toString('hex')`.
 */
module Hex {

  type byte = x: int | 0 <= x < 256

  predicate IsHexDigit(c: char) {
    '0' <= c <= '9' || 'a' <= c <= 'f' || 'A' <= c <= 'F'
  }

  /** Lower-case hex digits only: what `toString(16)` and `toString('hex')` emit. */
  predicate IsLowerHexDigit(c: char) {
    '0' <= c <= '9' || 'a' <= c <= 'f'
  }

  predicate IsHexString(s: string) {
    forall i :: 0 <= i < |s| ==> IsHexDigit(s[i])
  }

  predicate IsLowerHex(s: string) {
    forall i :: 0 <= i < |s| ==> IsLowerHexDigit(s[i])
  }

  function DigitValue(c: char): (v: nat)
    requires IsHexDigit(c)
    ensures v < 16
  {
    if '0' <= c <= '9' then c as int - '0' as int
    else if 'a' <= c <= 'f' then c as int - 'a' as int + 10
    else c as int - 'A' as int + 10
  }

  function Digit(n: nat): (c: char)
    requires n < 16
    ensures IsLowerHexDigit(c) && IsHexDigit(c)
    ensures DigitValue(c) == n
  {
    if n < 10 then (n + '0' as int) as char else (n - 10 + 'a' as int) as char
  }

  lemma DigitOfValue(c: char)
    requires IsLowerHexDigit(c)
    ensures IsHexDigit(c) && Digit(DigitValue(c)) == c
  {
  }

  /** `n.toString(16)` for a non-negative integer: no leading zeros, lower case. */
  function ToHex(n: nat): (s: string)
    ensures |s| >= 1 && IsLowerHex(s) && IsHexString(s)
    ensures n > 0 ==> s[0] != '0'
    decreases n
  {
    if n < 16 then [Digit(n)] else ToHex(n / 16) + [Digit(n % 16)]
  }

  /** `parseInt(s, 16)` of a string made only of hex digits (most significant first). */
  function HexValue(s: string): nat
    requires IsHexString(s)
  {
    if s == [] then 0 else 16 * HexValue(s[..|s| - 1]) + DigitValue(s[|s| - 1])
  }

  /** Printing then parsing gives the number back. */
  lemma {:induction false} HexValueToHex(n: nat)
    ensures HexValue(ToHex(n)) == n
    decreases n
  {
    if n >= 16 {
      HexValueToHex(n / 16);
      var s := ToHex(n);
      assert s[..|s| - 1] == ToHex(n / 16);
    }
  }

  /** Number of hex digits of `n`: one below 16, two below 256, more from 256 on. */
  lemma {:induction false} ToHexLength(n: nat)
    ensures n < 16 <==> |ToHex(n)| == 1
    ensures n < 256 <==> |ToHex(n)| <= 2
    ensures 16 <= n < 256 ==> |ToHex(n)| == 2
    decreases n
  {
    if n >= 16 {
      ToHexLength(n / 16);
    }
  }

  /** `s.padStart(2, '0')`: widens to two characters and never truncates. */
  function PadStart2(s: string): (r: string)
    ensures |r| == if |s| >= 2 then |s| else 2
  {
    if |s| >= 2 then s else seq(2 - |s|, _ => '0') + s
  }

  /** Padding keeps the text as its suffix and fills the front with zeros. */
  lemma PadStart2Shape(s: string)
    ensures var r := PadStart2(s);
      r[|r| - |s|..] == s && forall i :: 0 <= i < |r| - |s| ==> r[i] == '0'
  {
  }

  /** `n.toString(16).padStart(2, '0')` */
  function Hex2(n: nat): (r: string)
    ensures IsLowerHex(r) && IsHexString(r)
    ensures n < 256 <==> |r| == 2
  {
    ToHexLength(n);
    PadStart2(ToHex(n))
  }

  /** `n.toString(16)` for any integer: a minus sign in front of the magnitude's digits. */
  function ToHexSigned(n: int): (s: string)
    ensures |s| >= 1
    ensures n >= 0 ==> s == ToHex(n)
    ensures n < 0 ==> s == "-" + ToHex(-n) && s[0] == '-'
  {
    if n < 0 then "-" + ToHex(-n) else ToHex(n)
  }

  /** `n.toString(16).padStart(2, '0')` for any integer. */
  function Hex2Signed(n: int): (r: string)
    ensures n >= 0 ==> r == Hex2(n)
    ensures n < 0 ==> r == ToHexSigned(n)
  {
    PadStart2(ToHexSigned(n))
  }

  /** A byte prints as exactly two lower-case digits that parse back to it. */
  lemma Hex2Byte(n: nat)
    requires n < 256
    ensures |Hex2(n)| == 2 && IsLowerHex(Hex2(n)) && IsHexString(Hex2(n))
    ensures HexValue(Hex2(n)) == n
    ensures Hex2(n) == [Digit(n / 16), Digit(n % 16)]
  {
    ToHexLength(n);
    HexValueToHex(n);
    var s := Hex2(n);
    if n < 16 {
      assert s == ['0', Digit(n)];
      assert s[..1] == ['0'];
    } else {
      assert ToHex(n) == ToHex(n / 16) + [Digit(n % 16)];
      assert s == [Digit(n / 16), Digit(n % 16)];
    }
  }

  /** From 256 on, padding does nothing and the text is wider than a byte. */
  lemma Hex2Wide(n: nat)
    requires n >= 256
    ensures Hex2(n) == ToHex(n) && |Hex2(n)| > 2
  {
    ToHexLength(n);
  }

  /**
   * `Buffer.from(s, 'hex')`: decodes pairs of hex digits from the left and
   * stops at the first pair that is incomplete or holds a non-hex character.
   */
  function DecodeHex(s: string): (bs: seq<byte>)
    ensures |bs| <= |s| / 2
    decreases |s|
  {
    if |s| < 2 || !IsHexDigit(s[0]) || !IsHexDigit(s[1]) then []
    else [16 * DigitValue(s[0]) + DigitValue(s[1])] + DecodeHex(s[2..])
  }

  /** `Buffer#toString('hex')`: two lower-case digits per byte. */
  function EncodeHex(bs: seq<byte>): (s: string)
    ensures |s| == 2 * |bs| && IsLowerHex(s) && IsHexString(s)
  {
    if bs == [] then [] else Hex2(bs[0]) + EncodeHex(bs[1..])
  }

  lemma EncodeHexAppend(a: seq<byte>, b: seq<byte>)
    ensures EncodeHex(a + b) == EncodeHex(a) + EncodeHex(b)
  {
    if a != [] {
      assert (a + b)[0] == a[0];
      assert (a + b)[1..] == a[1..] + b;
      EncodeHexAppend(a[1..], b);
    } else {
      assert a + b == b;
    }
  }

  /** Decoding undoes encoding. */
  lemma {:induction false} DecodeEncode(bs: seq<byte>)
    ensures DecodeHex(EncodeHex(bs)) == bs
  {
    if bs != [] {
      Hex2Byte(bs[0]);
      var s := EncodeHex(bs);
      assert s[2..] == EncodeHex(bs[1..]);
      DecodeEncode(bs[1..]);
    }
  }

  /** Encoding undoes decoding on canonical hex text (lower case, even length). */
  lemma {:induction false} EncodeDecode(s: string)
    requires IsLowerHex(s) && |s| % 2 == 0
    ensures EncodeHex(DecodeHex(s)) == s
    decreases |s|
  {
    if s != [] {
      assert IsLowerHexDigit(s[0]) && IsLowerHexDigit(s[1]);
      DigitOfValue(s[0]);
      DigitOfValue(s[1]);
      var b: byte := 16 * DigitValue(s[0]) + DigitValue(s[1]);
      assert b / 16 == DigitValue(s[0]) && b % 16 == DigitValue(s[1]);
      Hex2Byte(b);
      assert Hex2(b) == s[..2];
      var rest := s[2..];
      assert IsLowerHex(rest);
      assert DecodeHex(s) == [b] + DecodeHex(rest);
      EncodeDecode(rest);
      assert EncodeHex(DecodeHex(s)) == Hex2(b) + EncodeHex(DecodeHex(rest));
      assert s == s[..2] + rest;
    }
  }

  /** Decoding a concatenation of canonical text decodes each part. */
  lemma {:induction false} DecodeHexAppend(a: string, b: string)
    requires IsHexString(a) && |a| % 2 == 0
    ensures DecodeHex(a + b) == DecodeHex(a) + DecodeHex(b)
    decreases |a|
  {
    if a != [] {
      assert (a + b)[0] == a[0] && (a + b)[1] == a[1];
      assert (a + b)[2..] == a[2..] + b;
      DecodeHexAppend(a[2..], b);
    } else {
      assert a + b == b;
    }
  }

  /** Canonical hex text decodes to one byte per pair of characters. */
  lemma {:induction false} DecodeHexLength(s: string)
    requires IsHexString(s) && |s| % 2 == 0
    ensures |DecodeHex(s)| == |s| / 2
    decreases |s|
  {
    if s != [] {
      DecodeHexLength(s[2..]);
    }
  }
}
