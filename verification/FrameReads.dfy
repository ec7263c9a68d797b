/** The frame of an output can be read back: its fields stand in a fixed order, every number has
    eight bytes with the most significant first, and no two outputs have the same frame
    (core/tools/output.go:622-691). */
module FrameReads {
  import opened Utf8
  import opened Wrappers
  import opened Frame

  const TWO64: nat := 0x1_0000_0000_0000_0000

  // ---- numbers ----

  /** The number that bytes stand for, the first counting most. */
  function ReadNumber(s: Bytes): nat
  {
    if s == [] then 0 else ReadNumber(s[..|s| - 1]) * 256 + s[|s| - 1]
  }

  function Power256(n: nat): nat
  {
    if n == 0 then 1 else 256 * Power256(n - 1)
  }

  lemma {:induction false} BigEndianReads(v: nat, width: nat)
    requires v < Power256(width)
    ensures ReadNumber(BigEndian(v, width)) == v
  {
    if width > 0 {
      BigEndianReads(v / 256, width - 1);
      assert BigEndian(v, width)[..width - 1] == BigEndian(v / 256, width - 1);
    }
  }

  lemma U64Reads(v: nat, rest: Bytes)
    requires v < TWO64
    ensures (U64(v) + rest)[..8] == U64(v) && (U64(v) + rest)[8..] == rest && ReadNumber(U64(v)) == v
  {
    assert Power256(4) == 0x1_0000_0000;
    assert Power256(8) == TWO64;
    BigEndianReads(v, 8);
  }

  // ---- reading ----

  /** What was read, and what is left. */
  datatype Read<T> = Read(value: T, rest: Bytes) | Unreadable

  function ReadU64(s: Bytes): Read<nat>
  {
    if |s| < 8 then Unreadable else Read(ReadNumber(s[..8]), s[8..])
  }

  function ReadFramed(s: Bytes): (r: Read<Bytes>)
    ensures r.Read? ==> |r.rest| < |s|
  {
    var n := ReadU64(s);
    if n.Unreadable? || |n.rest| < n.value then Unreadable else Read(n.rest[..n.value], n.rest[n.value..])
  }

  /** Chunks up to one of length zero. */
  function ReadChunks(s: Bytes): (r: Read<Bytes>)
    ensures r.Read? ==> |r.rest| < |s|
  {
    var chunk := ReadFramed(s);
    if chunk.Unreadable? then Unreadable
    else if chunk.value == [] then Read([], chunk.rest)
    else
      var more := ReadChunks(chunk.rest);
      if more.Unreadable? then Unreadable else Read(chunk.value + more.value, more.rest)
  }

  datatype Tags = Tags(kind: Bytes, mime: Bytes, detail: Bytes)

  /** What comes before the bytes of a block: its kind, media type and detail. */
  function ReadTags(s: Bytes): Read<Tags>
  {
    var kind := ReadFramed(s);
    if kind.Unreadable? then Unreadable
    else
      var mime := ReadFramed(kind.rest);
      if mime.Unreadable? then Unreadable
      else
        var detail := ReadFramed(mime.rest);
        if detail.Unreadable? then Unreadable else Read(Tags(kind.value, mime.value, detail.value), detail.rest)
  }

  const WORD_TEXT: Bytes := Ascii("text")
  const WORD_IMAGE: Bytes := Ascii("image")
  const WORD_BLOCK: Bytes := Ascii("block")
  const WORD_DOMAIN: Bytes := Ascii("serpe.tools.output.v1")

  function BlockOf(tags: Tags, payload: Bytes): Option<Block>
  {
    if tags == Tags(WORD_TEXT, [], []) then Some(Text(payload))
    else if tags.kind == WORD_IMAGE then Some(Image(tags.mime, tags.detail, payload))
    else None
  }

  /** The bytes of a block: its chunks, their size, and the closing word. */
  function ReadPayload(s: Bytes): Read<Bytes>
  {
    var payload := ReadChunks(s);
    if payload.Unreadable? then Unreadable
    else
      var size := ReadU64(payload.rest);
      if size.Unreadable? || size.value != |payload.value| then Unreadable
      else
        var last := ReadFramed(size.rest);
        if last.Unreadable? || last.value != WORD_BLOCK then Unreadable else Read(payload.value, last.rest)
  }

  /** The i-th block. */
  function ReadBlock(s: Bytes, i: nat): Read<Block>
  {
    var index := ReadU64(s);
    if index.Unreadable? || index.value != i then Unreadable
    else
      var tags := ReadTags(index.rest);
      if tags.Unreadable? then Unreadable
      else
        var payload := ReadPayload(tags.rest);
        if payload.Unreadable? || BlockOf(tags.value, payload.value).None? then Unreadable
        else Read(BlockOf(tags.value, payload.value).value, payload.rest)
  }

  function ReadBlocks(s: Bytes, from: nat, n: nat): Read<seq<Block>>
    decreases n
  {
    if n == 0 then Read([], s)
    else
      var first := ReadBlock(s, from);
      if first.Unreadable? then Unreadable
      else
        var more := ReadBlocks(first.rest, from + 1, n - 1);
        if more.Unreadable? then Unreadable else Read([first.value] + more.value, more.rest)
  }

  /** A whole output: the domain, version 1, the number of blocks, and the blocks. */
  function ReadOutput(s: Bytes): Option<seq<Block>>
  {
    var domain := ReadFramed(s);
    if domain.Unreadable? || domain.value != WORD_DOMAIN then None
    else
      var version := ReadU64(domain.rest);
      if version.Unreadable? || version.value != 1 then None
      else
        var count := ReadU64(version.rest);
        if count.Unreadable? then None
        else
          var blocks := ReadBlocks(count.rest, 0, count.value);
          if blocks.Unreadable? || blocks.rest != [] then None else Some(blocks.value)
  }

  // ---- what is written is read ----

  lemma NumberBack(v: nat, rest: Bytes)
    requires v < TWO64
    ensures ReadU64(U64(v) + rest) == Read(v, rest)
  {
    U64Reads(v, rest);
  }

  lemma FramedBack(p: Bytes, rest: Bytes)
    requires |p| < TWO64
    ensures ReadFramed(Framed(p) + rest) == Read(p, rest)
  {
    hide U64, ReadU64;
    Assoc(U64(|p|), p, rest);
    NumberBack(|p|, p + rest);
    assert (p + rest)[..|p|] == p && (p + rest)[|p|..] == rest;
  }

  lemma {:induction false} ChunksBack(p: Bytes, rest: Bytes)
    requires |p| < TWO64
    ensures ReadChunks(Chunks(p) + (U64(0) + rest)) == Read(p, rest)
  {
    hide U64, ReadFramed;
    if p == [] {
      assert Chunks(p) + (U64(0) + rest) == U64(0) + rest;
      assert Framed([]) == U64(0) && Framed([]) + rest == U64(0) + rest;
      FramedBack([], rest);
    } else {
      var n := if |p| < FRAME_CHUNK then |p| else FRAME_CHUNK;
      var tail := Chunks(p[n..]) + (U64(0) + rest);
      Assoc(Framed(p[..n]), Chunks(p[n..]), U64(0) + rest);
      FramedBack(p[..n], tail);
      ChunksBack(p[n..], rest);
      assert p == p[..n] + p[n..];
    }
  }

  /** Small enough for its lengths to have eight bytes. */
  predicate Sized(b: Block)
  {
    |b.Mime()| < TWO64 && |b.Detail()| < TWO64 && |b.Payload()| < TWO64
  }

  lemma Kinds(b: Block)
    ensures BlockOf(Tags(b.Kind(), b.Mime(), b.Detail()), b.Payload()) == Some(b)
  {
    assert |WORD_TEXT| == 4 && |WORD_IMAGE| == 5;
  }

  lemma BlockBack(i: nat, b: Block, rest: Bytes)
    requires i < TWO64 && Sized(b)
    ensures ReadBlock(BlockBytes(i, b) + rest, i) == Read(b, rest)
  {
    Kinds(b);
    hide U64, Framed, Chunks, ReadU64, ReadFramed, ReadChunks, Ascii, BlockOf;
    var end := Framed(BLOCK_BOUNDARY) + rest;
    var size := U64(|b.Payload()|) + end;
    var payload := Chunks(b.Payload()) + (U64(0) + size);
    var detail := Framed(b.Detail()) + payload;
    var mime := Framed(b.Mime()) + detail;
    var kind := Framed(b.Kind()) + mime;
    BlockForm(i, b, rest);
    NumberBack(i, kind);
    FramedBack(b.Kind(), mime);
    FramedBack(b.Mime(), detail);
    FramedBack(b.Detail(), payload);
    ChunksBack(b.Payload(), size);
    NumberBack(|b.Payload()|, end);
    FramedBack(BLOCK_BOUNDARY, rest);
  }

  lemma BlockForm(i: nat, b: Block, rest: Bytes)
    ensures |b.Kind()| < TWO64 && |BLOCK_BOUNDARY| < TWO64
    ensures BlockBytes(i, b) + rest
      == U64(i) + (Framed(b.Kind()) + (Framed(b.Mime()) + (Framed(b.Detail()) + (Chunks(b.Payload()) + (U64(0) + (U64(|b.Payload()|) + (Framed(BLOCK_BOUNDARY) + rest)))))))
  {
    hide U64, Framed, Chunks, Ascii;
    Flatten(U64(i), Framed(b.Kind()), Framed(b.Mime()), Framed(b.Detail()), Chunks(b.Payload()), U64(0), U64(|b.Payload()|), Framed(BLOCK_BOUNDARY), rest);
  }

  lemma Flatten(a: Bytes, b: Bytes, c: Bytes, d: Bytes, e: Bytes, f: Bytes, g: Bytes, h: Bytes, r: Bytes)
    ensures a + b + c + d + e + (f + g + h) + r == a + (b + (c + (d + (e + (f + (g + (h + r)))))))
  {
    Assoc(g, h, r);
    Assoc(f, g + h, r);
    Assoc(f, g, h);
    Assoc(e, f + g + h, r);
    Assoc(d, e, f + g + h + r);
    Assoc(c, d, e + (f + g + h + r));
    Assoc(b, c, d + (e + (f + g + h + r)));
    Assoc(a, b, c + (d + (e + (f + g + h + r))));
    Assoc(a + b, c, d + (e + (f + g + h + r)));
    Assoc(a + b + c, d, e + (f + g + h + r));
    Assoc(a + b + c + d, e, f + g + h + r);
    Assoc(a + b + c + d + e, f + g + h, r);
  }

  lemma {:induction false} BlocksBack(blocks: seq<Block>, from: nat)
    requires from <= |blocks| < TWO64 && forall i :: 0 <= i < |blocks| ==> Sized(blocks[i])
    ensures ReadBlocks(BlocksFrom(blocks, from), from, |blocks| - from) == Read(blocks[from..], [])
    decreases |blocks| - from
  {
    hide BlockBytes, ReadBlock, Sized;
    if from < |blocks| {
      BlockBack(from, blocks[from], BlocksFrom(blocks, from + 1));
      BlocksBack(blocks, from + 1);
      assert blocks[from..] == [blocks[from]] + blocks[from + 1..];
    }
  }

  /** The frame of an output reads back as the output: what is hashed determines every block with
      its kind, media type, detail and bytes, and their order. */
  lemma OutputReadsBack(blocks: seq<Block>)
    requires |blocks| < TWO64 && forall i :: 0 <= i < |blocks| ==> Sized(blocks[i])
    ensures ReadOutput(OutputBytes(blocks)) == Some(blocks)
  {
    hide U64, Framed, ReadU64, ReadFramed, ReadBlocks, BlocksFrom, Sized, Ascii;
    var body := BlocksFrom(blocks, 0);
    BlocksBack(blocks, 0);
    assert blocks[0..] == blocks;
    var count := U64(|blocks|) + body;
    var version := U64(OUTPUT_VERSION) + count;
    DomainShort();
    FramedBack(OUTPUT_DOMAIN, version);
    NumberBack(OUTPUT_VERSION, count);
    NumberBack(|blocks|, body);
    Assoc(Framed(OUTPUT_DOMAIN), U64(OUTPUT_VERSION), count);
    Assoc(Framed(OUTPUT_DOMAIN) + U64(OUTPUT_VERSION), U64(|blocks|), body);
  }

  lemma DomainShort()
    ensures |OUTPUT_DOMAIN| < TWO64
  {
  }
}
