/** Byte strings, lower-case hexadecimal text and fixed-width integers: the
    formats every message, Redis value and key of the system is written in. */
module Encoding {

  type byte = x: int | 0 <= x < 256

  type Bytes = seq<byte>

  datatype Option<+T> = None | Some(value: T)

  // ---------------------------------------------------------------- hexadecimal

  function HexDigit(n: nat): char
    requires n < 16
  {
    "0123456789abcdef"[n]
  }

  /** The decoder takes upper-case digits too. */
  function HexValue(c: char): Option<nat> {
    if '0' <= c <= '9' then Some((c - '0') as nat)
    else if 'a' <= c <= 'f' then Some((c - 'a') as nat + 10)
    else if 'A' <= c <= 'F' then Some((c - 'A') as nat + 10)
    else None
  }

  function HexEncode(b: Bytes): (s: string)
    ensures |s| == 2 * |b|
  {
    if b == [] then ""
    else [HexDigit(b[0] / 16), HexDigit(b[0] % 16)] + HexEncode(b[1..])
  }

  /** What a decode yields: on malformed text the bytes read before the error
      are still returned, and one caller goes on to compare them. */
  datatype Decoded = Decoded(bytes: Bytes, ok: bool)

  function HexDecode(s: string): Decoded {
    if |s| == 0 then Decoded([], true)
    else if |s| == 1 || HexValue(s[0]).None? || HexValue(s[1]).None? then Decoded([], false)
    else
      var rest := HexDecode(s[2..]);
      Decoded([HexPair(s[0], s[1])] + rest.bytes, rest.ok)
  }

  function HexPair(hi: char, lo: char): byte
    requires HexValue(hi).Some? && HexValue(lo).Some?
  {
    HexValue(hi).value * 16 + HexValue(lo).value
  }

  lemma HexDigitValue(n: nat)
    requires n < 16
    ensures HexValue(HexDigit(n)) == Some(n)
  {
  }

  lemma {:induction false} HexRoundTrip(b: Bytes)
    ensures HexDecode(HexEncode(b)) == Decoded(b, true)
  {
    if b == [] {
    } else {
      HexDigitValue(b[0] / 16);
      HexDigitValue(b[0] % 16);
      HexRoundTrip(b[1..]);
      assert HexEncode(b)[2..] == HexEncode(b[1..]);
      assert b == [b[0]] + b[1..];
    }
  }

  /** An accepted text is twice as long as what it decodes to. */
  lemma {:induction false} HexLength(s: string)
    ensures HexDecode(s).ok ==> |s| == 2 * |HexDecode(s).bytes|
  {
    if |s| >= 2 {
      HexLength(s[2..]);
    }
  }

  const HEX_CHARACTERS := "0123456789abcdefABCDEF"

  lemma HexValueExactly(c: char)
    ensures HexValue(c).Some? <==> c in HEX_CHARACTERS
    ensures HexValue(c).Some? ==> HexValue(c).value < 16
  {
    assert forall i :: 0 <= i < |HEX_CHARACTERS| ==> HexValue(HEX_CHARACTERS[i]).Some?;
    var d := if '0' <= c <= '9' then (c - '0') as nat
      else if 'a' <= c <= 'f' then (c - 'a') as nat + 10
      else if 'A' <= c <= 'F' then (c - 'A') as nat + 16
      else 0;
    assert HexValue(c).Some? ==> HEX_CHARACTERS[d] == c;
  }

  predicate HexText(s: string) {
    |s| % 2 == 0 && forall c :: c in s ==> c in HEX_CHARACTERS
  }

  lemma HexTextPair(s: string)
    requires |s| >= 2
    ensures HexText(s) <==> HexValue(s[0]).Some? && HexValue(s[1]).Some? && HexText(s[2..])
  {
    HexValueExactly(s[0]);
    HexValueExactly(s[1]);
    assert s == [s[0], s[1]] + s[2..];
  }

  /** Which texts the decoder takes: just those of even length with nothing but
      hexadecimal digits in them. */
  lemma {:induction false} HexDecodesExactly(s: string)
    ensures HexDecode(s).ok <==> HexText(s)
  {
    if |s| >= 2 {
      HexTextPair(s);
      HexDecodesExactly(s[2..]);
    }
  }

  function LowerChar(c: char): char {
    if 'A' <= c <= 'F' then (c as int + 32) as char else c
  }

  function Lower(s: string): (r: string)
    ensures |r| == |s|
  {
    seq(|s|, i requires 0 <= i < |s| => LowerChar(s[i]))
  }

  lemma LowerDigit(c: char)
    requires HexValue(c).Some?
    ensures HexValue(c).value < 16 && LowerChar(c) == HexDigit(HexValue(c).value)
  {
  }

  lemma PairDigits(hi: char, lo: char)
    requires HexValue(hi).Some? && HexValue(lo).Some?
    ensures HexDigit(HexPair(hi, lo) / 16) == LowerChar(hi) && HexDigit(HexPair(hi, lo) % 16) == LowerChar(lo)
  {
    LowerDigit(hi);
    LowerDigit(lo);
    assert HexPair(hi, lo) / 16 == HexValue(hi).value && HexPair(hi, lo) % 16 == HexValue(lo).value;
  }

  lemma EncodeCons(x: byte, rest: Bytes)
    ensures HexEncode([x] + rest) == [HexDigit(x / 16), HexDigit(x % 16)] + HexEncode(rest)
  {
    assert ([x] + rest)[1..] == rest;
  }

  lemma LowerTwo(hi: char, lo: char, rest: string)
    ensures Lower([hi, lo] + rest) == [LowerChar(hi), LowerChar(lo)] + Lower(rest)
  {
  }

  lemma LowerPair(hi: char, lo: char, rest: string, bytes: Bytes)
    requires HexValue(hi).Some? && HexValue(lo).Some? && HexEncode(bytes) == Lower(rest)
    ensures HexEncode([HexPair(hi, lo)] + bytes) == Lower([hi, lo] + rest)
  {
    PairDigits(hi, lo);
    EncodeCons(HexPair(hi, lo), bytes);
    LowerTwo(hi, lo, rest);
  }

  /** What decoding and encoding again makes of an accepted text: its lower-case
      form. So no two accepted texts but for the case of letters mean the same. */
  lemma {:induction false} HexNormalForm(s: string)
    requires HexDecode(s).ok
    ensures HexEncode(HexDecode(s).bytes) == Lower(s)
  {
    if s != "" {
      HexNormalForm(s[2..]);
      LowerPair(s[0], s[1], s[2..], HexDecode(s[2..]).bytes);
      assert s == [s[0], s[1]] + s[2..];
    }
  }

  /** The case of the letters makes no difference to what is decoded. */
  lemma CaseIgnored(s: string, t: string)
    requires HexDecode(s).ok && HexDecode(t).ok
    ensures HexDecode(s).bytes == HexDecode(t).bytes <==> Lower(s) == Lower(t)
  {
    HexNormalForm(s);
    HexNormalForm(t);
    HexRoundTrip(HexDecode(s).bytes);
    HexRoundTrip(HexDecode(t).bytes);
  }

  function HexAll(items: seq<Bytes>): (r: seq<string>)
    ensures |r| == |items|
  {
    seq(|items|, i requires 0 <= i < |items| => HexEncode(items[i]))
  }

  datatype HexList = HexList(items: seq<Bytes>, ok: bool)

  /** Decoding a list stops at the first malformed text. */
  function UnhexAll(texts: seq<string>): (r: HexList)
    ensures |r.items| <= |texts| && (r.ok ==> |r.items| == |texts|)
  {
    if texts == [] then HexList([], true)
    else if !HexDecode(texts[0]).ok then HexList([], false)
    else
      var rest := UnhexAll(texts[1..]);
      HexList([HexDecode(texts[0]).bytes] + rest.items, rest.ok)
  }

  lemma HexAllTail(items: seq<Bytes>)
    requires items != []
    ensures HexAll(items) == [HexEncode(items[0])] + HexAll(items[1..])
  {
  }

  lemma UnhexCons(text: string, rest: seq<string>)
    requires HexDecode(text).ok
    ensures UnhexAll([text] + rest) == HexList([HexDecode(text).bytes] + UnhexAll(rest).items, UnhexAll(rest).ok)
  {
    assert ([text] + rest)[1..] == rest;
  }

  lemma {:induction false} UnhexHexAll(items: seq<Bytes>)
    ensures UnhexAll(HexAll(items)) == HexList(items, true)
  {
    if items != [] {
      HexRoundTrip(items[0]);
      UnhexHexAll(items[1..]);
      HexAllTail(items);
      UnhexCons(HexEncode(items[0]), HexAll(items[1..]));
      assert items == [items[0]] + items[1..];
    }
  }

  // ------------------------------------------------------- fixed-width integers

  /** The value can be written in that many bytes. */
  predicate Fits(v: nat, width: nat)
    decreases width, v
  {
    if width == 0 then v == 0 else Fits(v / 256, width - 1)
  }

  lemma {:induction false} FitsMonotone(v: nat, w: nat, narrow: nat, wide: nat)
    requires v <= w && Fits(w, narrow) && narrow <= wide
    ensures Fits(v, wide)
    decreases wide
  {
    if wide > 0 {
      if narrow == 0 {
        FitsMonotone(0, 0, 0, wide - 1);
      } else {
        FitsMonotone(v / 256, w / 256, narrow - 1, wide - 1);
      }
    }
  }

  function ToLittleEndian(v: nat, width: nat): (b: Bytes)
    ensures |b| == width
    decreases width, v
  {
    if width == 0 then [] else [v % 256] + ToLittleEndian(v / 256, width - 1)
  }

  function FromLittleEndian(b: Bytes): nat {
    if b == [] then 0 else b[0] + 256 * FromLittleEndian(b[1..])
  }

  lemma {:induction false} LittleEndianRoundTrip(v: nat, width: nat)
    requires Fits(v, width)
    ensures FromLittleEndian(ToLittleEndian(v, width)) == v
  {
    if width > 0 {
      LittleEndianRoundTrip(v / 256, width - 1);
      assert ToLittleEndian(v, width)[1..] == ToLittleEndian(v / 256, width - 1);
    }
  }

  /** If twice the value still fits, its topmost bit is clear. */
  lemma {:induction false} LittleEndianTopByte(v: nat, width: nat)
    requires width > 0 && Fits(2 * v, width)
    ensures ToLittleEndian(v, width)[width - 1] < 128
  {
    if width > 1 {
      assert 2 * (v / 256) <= (2 * v) / 256;
      FitsMonotone(2 * (v / 256), (2 * v) / 256, width - 1, width - 1);
      LittleEndianTopByte(v / 256, width - 1);
    } else {
      assert Fits((2 * v) / 256, 0);
    }
  }

  function ToBigEndian(v: nat, width: nat): (b: Bytes)
    ensures |b| == width
    decreases width, v
  {
    if width == 0 then [] else ToBigEndian(v / 256, width - 1) + [v % 256]
  }

  function FromBigEndian(b: Bytes): nat {
    if b == [] then 0 else FromBigEndian(b[..|b| - 1]) * 256 + b[|b| - 1]
  }

  lemma {:induction false} BigEndianRoundTrip(v: nat, width: nat)
    requires Fits(v, width)
    ensures FromBigEndian(ToBigEndian(v, width)) == v
  {
    if width > 0 {
      BigEndianRoundTrip(v / 256, width - 1);
      assert ToBigEndian(v, width)[..width - 1] == ToBigEndian(v / 256, width - 1);
    }
  }

  lemma LowByte(b: byte, rest: nat)
    ensures (b + 256 * rest) % 256 == b && (b + 256 * rest) / 256 == rest
  {
  }

  /** Bytes of any width are read and written back as themselves. */
  lemma {:induction false} LittleEndianBack(b: Bytes)
    ensures ToLittleEndian(FromLittleEndian(b), |b|) == b
  {
    if b != [] {
      LittleEndianBack(b[1..]);
      LowByte(b[0], FromLittleEndian(b[1..]));
      assert ToLittleEndian(FromLittleEndian(b), |b|) == [b[0]] + b[1..];
    }
  }

  lemma {:induction false} BigEndianBack(b: Bytes)
    ensures ToBigEndian(FromBigEndian(b), |b|) == b
  {
    if b != [] {
      var n := |b| - 1;
      BigEndianBack(b[..n]);
      LowByte(b[n], FromBigEndian(b[..n]));
      assert ToBigEndian(FromBigEndian(b), |b|) == b[..n] + [b[n]];
    }
  }

  // ------------------------------------------------------------ 32-byte buffers

  function Zeros(n: nat): (b: Bytes)
    ensures |b| == n
  {
    seq(n, _ => 0)
  }

  /** What `copy` leaves in a zeroed 32-byte array: the source cut or padded. */
  function Fit32(src: Bytes): (b: Bytes)
    ensures |b| == 32
    ensures forall i :: 0 <= i < 32 ==> b[i] == if i < |src| then src[i] else 0
    ensures |src| == 32 ==> b == src
  {
    if |src| >= 32 then src[..32] else src + Zeros(32 - |src|)
  }
}
