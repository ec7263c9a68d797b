/** A character of a JSON string may be written as it is or as one or two escaped UTF-16 code
    units; both read alike (section 7 of RFC 8259, section 3 of RFC 3629;
    internal/jsonvalue/parse.go:326-398). */
module JsonEscapes {
  import opened Utf8
  import opened Wrappers
  import opened Escape
  import opened Wire
  import opened Json

  /** The code point of an encoded character. */
  function CodePoint(r: Bytes): nat
    requires RuneLen(r) == |r| > 0
  {
    if |r| == 1 then r[0]
    else if |r| == 2 then Bits(r[0], 0xC0) * 64 + Bits(r[1], 0x80)
    else if |r| == 3 then Bits(r[0], 0xE0) * 4096 + Bits(r[1], 0x80) * 64 + Bits(r[2], 0x80)
    else Bits(r[0], 0xF0) * 262144 + Bits(r[1], 0x80) * 4096 + Bits(r[2], 0x80) * 64 + Bits(r[3], 0x80)
  }

  /** What a byte says beyond its mark. */
  function Bits(b: int, mark: int): nat
    requires mark <= b
  {
    b - mark
  }

  /** A code unit as a reverse solidus, the letter u and four hexadecimal digits. */
  function Unit(u: nat): Bytes
    requires u < 0x10000
  {
    [92, 117, HexDigit(u / 4096), HexDigit(u / 256 % 16), HexDigit(u / 16 % 16), HexDigit(u % 16)]
  }

  /** The escaped form of a code point: itself in the basic plane, else a surrogate pair. */
  function Units(c: nat): Bytes
    requires c < 0x110000
  {
    if c < 0x10000 then Unit(c) else Unit(0xD800 + (c - 0x10000) / 1024) + Unit(0xDC00 + (c - 0x10000) % 1024)
  }

  lemma PointInRange(r: Bytes)
    requires RuneLen(r) == |r| > 0
    ensures CodePoint(r) < 0x110000 && !(0xD800 <= CodePoint(r) < 0xE000)
    ensures |r| == 4 <==> CodePoint(r) >= 0x10000
  {
  }

  lemma DigitReads(d: nat)
    requires d < 16
    ensures HexValue(HexDigit(d)) == Some(d)
  {
  }

  lemma UnitReads(u: nat, rest: Bytes)
    requires u < 0x10000
    ensures HexQuad((Unit(u) + rest)[2..]) == Some(u)
  {
    hide HexValue, HexDigit;
    DigitReads(u / 4096);
    DigitReads(u / 256 % 16);
    DigitReads(u / 16 % 16);
    DigitReads(u % 16);
    var s := (Unit(u) + rest)[2..];
    assert s[0] == Unit(u)[2] && s[1] == Unit(u)[3] && s[2] == Unit(u)[4] && s[3] == Unit(u)[5];
    Digits4(u);
  }

  lemma Digits4(u: nat)
    requires u < 0x10000
    ensures u / 4096 * 4096 + u / 256 % 16 * 256 + u / 16 % 16 * 16 + u % 16 == u
  {
    var a := u / 16;
    var b := a / 16;
    assert u == 16 * a + u % 16 && a == 16 * b + a % 16 && b == 16 * (b / 16) + b % 16;
    assert b == u / 256 && b / 16 == u / 4096;
  }

  /** In the basic plane an escape reads as the character. */
  lemma EncodesBack(r: Bytes)
    requires RuneLen(r) == |r| && 1 <= |r| <= 3
    ensures CodePoint(r) < 0x10000 && EncodeRune(CodePoint(r)) == r
  {
    if |r| == 3 {
      ThreeBytes(r[0] - 0xE0, r[1] - 0x80, r[2] - 0x80);
    }
  }

  lemma ThreeBytes(a: nat, b: nat, c: nat)
    requires a < 16 && b < 64 && c < 64
    ensures var p := a * 4096 + b * 64 + c; p / 4096 == a && p / 64 % 64 == b && p % 64 == c
  {
    assert (a * 4096 + b * 64 + c) / 64 == a * 64 + b;
  }

  /** A surrogate pair reads as the character it stands for. */
  lemma PairsBack(r: Bytes)
    requires RuneLen(r) == |r| == 4
    ensures var c := CodePoint(r); 0x10000 <= c < 0x110000 && EncodePair(0xD800 + (c - 0x10000) / 1024, 0xDC00 + (c - 0x10000) % 1024) == r
  {
    var c := CodePoint(r);
    PointInRange(r);
    var high, low := 0xD800 + (c - 0x10000) / 1024, 0xDC00 + (c - 0x10000) % 1024;
    assert 0x10000 + (high - 0xD800) * 0x400 + (low - 0xDC00) == c;
    FourBytes(r[0] - 0xF0, r[1] - 0x80, r[2] - 0x80, r[3] - 0x80);
  }

  lemma FourBytes(a: nat, b: nat, c: nat, d: nat)
    requires a < 8 && b < 64 && c < 64 && d < 64
    ensures var p := a * 262144 + b * 4096 + c * 64 + d; p / 0x40000 == a && p / 0x1000 % 64 == b && p / 64 % 64 == c && p % 64 == d
  {
    assert (a * 262144 + b * 4096 + c * 64 + d) / 64 == a * 4096 + b * 64 + c;
    assert (a * 4096 + b * 64 + c) / 64 == a * 64 + b;
    assert (a * 262144 + b * 4096 + c * 64 + d) / 0x1000 == a * 64 + b;
  }

  /** The encoded form of any code point. */
  function Encoded(c: nat): Bytes
    requires c < 0x110000
  {
    if c < 0x80 then [c]
    else if c < 0x800 then [0xC0 + c / 64, 0x80 + c % 64]
    else if c < 0x10000 then [0xE0 + c / 4096, 0x80 + c / 64 % 64, 0x80 + c % 64]
    else [0xF0 + c / 262144, 0x80 + c / 4096 % 64, 0x80 + c / 64 % 64, 0x80 + c % 64]
  }

  /** Every code point but the surrogates has an encoded form that is one character, and stands
      for it: nothing else counts as a character, and none is left out. */
  lemma EveryPointEncodes(c: nat)
    requires c < 0x110000 && !(0xD800 <= c < 0xE000)
    ensures RuneLen(Encoded(c)) == |Encoded(c)| && CodePoint(Encoded(c)) == c
  {
    SixBits(c);
  }

  lemma SixBits(c: nat)
    ensures c / 64 / 64 == c / 4096 && c / 4096 / 64 == c / 262144
    ensures c == c / 64 * 64 + c % 64 && c / 64 == c / 4096 * 64 + c / 64 % 64 && c / 4096 == c / 262144 * 64 + c / 4096 % 64
  {
  }

  /** The other way round: a character is the encoded form of its code point. */
  lemma EveryRuneIsEncoded(r: Bytes)
    requires RuneLen(r) == |r| > 0
    ensures CodePoint(r) < 0x110000 && Encoded(CodePoint(r)) == r
  {
    PointInRange(r);
    if |r| <= 3 {
      EncodesBack(r);
    } else {
      FourBytes(r[0] - 0xF0, r[1] - 0x80, r[2] - 0x80, r[3] - 0x80);
    }
  }

  /** For every character: its escaped form and the character itself read alike, whatever
      follows. */
  lemma EscapedReadsAlike(r: Bytes, rest: Bytes)
    requires RuneLen(r) == |r| > 0
    ensures CodePoint(r) < 0x110000 && StringBody(Units(CodePoint(r)) + rest) == Before(r, StringBody(rest))
    ensures |r| >= 2 ==> StringBody(r + rest) == StringBody(Units(CodePoint(r)) + rest)
  {
    UnitsRead(r, rest);
    if |r| >= 2 {
      PlainReads(r, rest);
    }
  }

  lemma UnitsRead(r: Bytes, rest: Bytes)
    requires RuneLen(r) == |r| > 0
    ensures CodePoint(r) < 0x110000 && StringBody(Units(CodePoint(r)) + rest) == Before(r, StringBody(rest))
  {
    hide StringBody, Unit, RuneLen, EncodePair, EncodeRune;
    var c := CodePoint(r);
    PointInRange(r);
    hide CodePoint;
    if c < 0x10000 {
      EncodesBack(r);
      OneUnit(c, rest);
    } else {
      PairsBack(r);
      TwoUnits(0xD800 + (c - 0x10000) / 1024, 0xDC00 + (c - 0x10000) % 1024, rest);
    }
  }

  lemma PlainReads(r: Bytes, rest: Bytes)
    requires RuneLen(r) == |r| >= 2
    ensures StringBody(r + rest) == Before(r, StringBody(rest))
  {
    FirstByte(r);
    RuneOfPrefix(r, rest);
    hide RuneLen;
    assert (r + rest)[..|r|] == r && (r + rest)[|r|..] == rest && (r + rest)[0] == r[0];
  }

  lemma FirstByte(r: Bytes)
    requires RuneLen(r) == |r| >= 2
    ensures r[0] >= 0x80
  {
  }

  lemma OneUnit(u: nat, rest: Bytes)
    requires u < 0x10000 && !(0xD800 <= u < 0xE000)
    ensures StringBody(Unit(u) + rest) == Before(EncodeRune(u), StringBody(rest))
  {
    hide HexQuad, HexDigit, EncodeRune;
    UnitReads(u, rest);
    var s := Unit(u) + rest;
    assert s[1..][1..] == s[2..] && s[6..] == rest && s[1..][0] == 117;
  }

  lemma TwoUnits(high: nat, low: nat, rest: Bytes)
    requires 0xD800 <= high < 0xDC00 && 0xDC00 <= low < 0xE000
    ensures StringBody(Unit(high) + Unit(low) + rest) == Before(EncodePair(high, low), StringBody(rest))
  {
    hide HexQuad, HexDigit, EncodePair;
    UnitReads(high, Unit(low) + rest);
    UnitReads(low, rest);
    var s := Unit(high) + Unit(low) + rest;
    assert s == Unit(high) + (Unit(low) + rest);
    var t := s[1..];
    assert t[1..] == s[2..] && t[0] == 117 && t[5] == 92 && t[6] == 117;
    assert t[7..] == (Unit(low) + rest)[2..] && s[12..] == rest;
  }

  /** Digits of either case read alike. */
  lemma UpperReadsAlike(d: nat)
    requires 10 <= d < 16
    ensures HexValue(55 + d) == HexValue(HexDigit(d)) == Some(d)
  {
  }
}
