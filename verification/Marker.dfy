/** Output limits and the truncation marker, whose length does not depend on the numbers it
    names (core/tools/output.go:18-23, 599-602). */
module Marker {
  import opened Utf8
  import opened Int64
  import opened Wrappers
  import opened Escape
  import opened Frame

  /** The hexadecimal form of a SHA-256 digest. */
  type Digest = d: Bytes | |d| == 64 && AllAscii(d) witness seq(64, i => 48)

  datatype Limits = Limits(
    maxBlocks: nat, maxTextBytes: int64, maxFramedBytes: int64,
    maxImageBytes: limit64, maxImageWidth: limit64, maxImageHeight: limit64, maxImagePixels: limit64, maxMetadataBytes: limit64)

  /** A number in a fixed count of hexadecimal digits. */
  function Hex(v: nat, width: nat): (r: Bytes)
    ensures |r| == width && AllAscii(r)
  {
    if width == 0 then [] else Hex(v / 16, width - 1) + [HexDigit(v % 16)]
  }

  function Power16(width: nat): nat
  {
    if width == 0 then 1 else 16 * Power16(width - 1)
  }

  /** The digits read back as the number, as long as it has no more. */
  lemma {:induction false} HexReads(v: nat, width: nat)
    requires v < Power16(width)
    ensures ReadHex(Hex(v, width)) == Some(v)
  {
    hide HexDigit, HexValue;
    if width > 0 {
      HexReads(v / 16, width - 1);
      DigitsAre(v % 16);
      assert Hex(v, width)[..width - 1] == Hex(v / 16, width - 1);
    }
  }

  lemma Sixteen()
    ensures Power16(16) == 0x1_0000_0000_0000_0000
  {
    assert Power16(8) == 0x1_0000_0000;
  }

  const MARKER_SIZE: nat := 44 + 16 + 23 + 16 + 8 + 64 + 37

  const MARKER_KEPT: Bytes := Ascii("\n[serpe-tool-truncated:v1 kept_framed_bytes=")
  const MARKER_ORIGINAL: Bytes := Ascii(" original_framed_bytes=")
  const MARKER_SHA: Bytes := Ascii(" sha256=")
  const MARKER_CONTINUE: Bytes := Ascii(" continue=use a continuation cursor]\n")

  function Numbered(tag: Bytes, value: nat): (r: Bytes)
    requires AllAscii(tag)
    ensures |r| == |tag| + 16 && AllAscii(r)
  {
    tag + Hex(value, 16)
  }

  function FormatMarker(kept: nat, original: nat, sha: Digest): (r: Bytes)
    ensures |r| == MARKER_SIZE && AllAscii(r)
  {
    hide Numbered, Hex, Ascii;
    assert |MARKER_KEPT| == 44 && |MARKER_ORIGINAL| == 23;
    assert |MARKER_SHA| == 8 && |MARKER_CONTINUE| == 37;
    Numbered(MARKER_KEPT, kept) + Numbered(MARKER_ORIGINAL, original) + MARKER_SHA + sha + MARKER_CONTINUE
  }

  /** The two numbers of a marker and where they stand. */
  lemma MarkerNames(kept: nat, original: nat, sha: Digest)
    requires kept < 0x1_0000_0000_0000_0000 && original < 0x1_0000_0000_0000_0000
    ensures exists a: Bytes, b: Bytes ::
      && |a| == |b| == 16 && ReadHex(a) == Some(kept) && ReadHex(b) == Some(original)
      && FormatMarker(kept, original, sha)
         == Ascii("\n[serpe-tool-truncated:v1 kept_framed_bytes=") + a + Ascii(" original_framed_bytes=") + b
            + Ascii(" sha256=") + sha + Ascii(" continue=use a continuation cursor]\n")
  {
    hide Hex, Ascii, ReadHex;
    Sixteen();
    HexReads(kept, 16);
    HexReads(original, 16);
    var a, b := Hex(kept, 16), Hex(original, 16);
    assert MARKER_KEPT + a + (MARKER_ORIGINAL + b) == MARKER_KEPT + a + MARKER_ORIGINAL + b;
  }

  lemma {:induction false} AsciiValid(s: Bytes)
    requires AllAscii(s)
    ensures Utf8.Valid(s)
  {
    if s != [] {
      AsciiValid(s[1..]);
    }
  }
}
