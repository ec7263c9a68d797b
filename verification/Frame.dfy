/** The length-prefixed frame over which tool outputs are measured and hashed: the bytes
    themselves, the sizes predicted for them, and the two ways of feeding them to the hash
    (core/tools/output.go:306-335, 482-499, 622-691, core/tools/collector.go:529-610). */
module Frame {
  import opened Utf8
  import opened Int64

  const FRAME_CHUNK: nat := 4096

  predicate AllAscii(s: Bytes)
  {
    forall i :: 0 <= i < |s| ==> s[i] < 0x80
  }

  function Ascii(s: string): (r: Bytes)
    requires forall i :: 0 <= i < |s| ==> s[i] < '\U{80}'
    ensures |r| == |s| && AllAscii(r)
  {
    seq(|s|, i requires 0 <= i < |s| => s[i] as int)
  }

  /** The details an image may ask for. */
  const DETAILS: seq<Bytes> := [[], Ascii("auto"), Ascii("low"), Ascii("high")]

  const OUTPUT_DOMAIN: Bytes := Ascii("serpe.tools.output.v1")
  const BLOCK_BOUNDARY: Bytes := Ascii("block")
  const OUTPUT_VERSION: nat := 1

  datatype Block = Text(text: Bytes) | Image(mime: Bytes, detail: Bytes, data: Bytes) {
    function Kind(): Bytes { if Text? then Ascii("text") else Ascii("image") }
    function Mime(): Bytes { if Text? then [] else mime }
    function Detail(): Bytes { if Text? then [] else detail }
    function Payload(): Bytes { if Text? then text else data }
  }

  // ---- the bytes ----

  function BigEndian(v: nat, width: nat): (r: Bytes)
    ensures |r| == width
  {
    if width == 0 then [] else BigEndian(v / 256, width - 1) + [v % 256]
  }

  function U64(v: nat): (r: Bytes)
    ensures |r| == 8
  {
    BigEndian(v, 8)
  }

  function Framed(p: Bytes): Bytes
  {
    U64(|p|) + p
  }

  /** The payload cut into chunks, each with its length in front. */
  function Chunks(p: Bytes): Bytes
  {
    if p == [] then []
    else
      var n := if |p| < FRAME_CHUNK then |p| else FRAME_CHUNK;
      Framed(p[..n]) + Chunks(p[n..])
  }

  function BlockHead(i: nat, b: Block): Bytes
  {
    U64(i) + Framed(b.Kind()) + Framed(b.Mime()) + Framed(b.Detail())
  }

  function BlockTail(size: nat): Bytes
  {
    U64(0) + U64(size) + Framed(BLOCK_BOUNDARY)
  }

  function BlockBytes(i: nat, b: Block): Bytes
  {
    BlockHead(i, b) + Chunks(b.Payload()) + BlockTail(|b.Payload()|)
  }

  /** The blocks `from` on. */
  function BlocksFrom(blocks: seq<Block>, from: nat): Bytes
    decreases |blocks| - from
  {
    if from >= |blocks| then [] else BlockBytes(from, blocks[from]) + BlocksFrom(blocks, from + 1)
  }

  function OutputHead(n: nat): Bytes
  {
    Framed(OUTPUT_DOMAIN) + U64(OUTPUT_VERSION) + U64(n)
  }

  function OutputBytes(blocks: seq<Block>): Bytes
  {
    OutputHead(|blocks|) + BlocksFrom(blocks, 0)
  }

  // ---- the sizes ----

  const HEAD_SIZE: nat := 45

  function ChunkCount(payload: nat): nat
  {
    payload / FRAME_CHUNK + if payload % FRAME_CHUNK != 0 then 1 else 0
  }

  function BlockSize(kind: nat, mime: nat, detail: nat, payload: nat): nat
  {
    8 + (8 + kind) + (8 + mime) + (8 + detail) + 8 * ChunkCount(payload) + payload + 8 + 8 + (8 + 5)
  }

  function SizeOf(b: Block): nat
  {
    BlockSize(|b.Kind()|, |b.Mime()|, |b.Detail()|, |b.Payload()|)
  }

  function SizesFrom(blocks: seq<Block>, from: nat): nat
    decreases |blocks| - from
  {
    if from >= |blocks| then 0 else SizeOf(blocks[from]) + SizesFrom(blocks, from + 1)
  }

  function FrameSize(blocks: seq<Block>): nat
  {
    HEAD_SIZE + SizesFrom(blocks, 0)
  }

  lemma {:induction false} ChunksSize(p: Bytes)
    ensures |Chunks(p)| == 8 * ChunkCount(|p|) + |p|
  {
    if p != [] {
      var n := if |p| < FRAME_CHUNK then |p| else FRAME_CHUNK;
      ChunksSize(p[n..]);
      assert ChunkCount(|p|) == 1 + ChunkCount(|p| - n);
    }
  }

  /** The predicted size of a block is the number of bytes it frames to. */
  lemma BlockBytesSize(i: nat, b: Block)
    ensures |BlockBytes(i, b)| == SizeOf(b)
  {
    ChunksSize(b.Payload());
  }

  lemma {:induction false} BlocksFromSize(blocks: seq<Block>, from: nat)
    ensures |BlocksFrom(blocks, from)| == SizesFrom(blocks, from)
    decreases |blocks| - from
  {
    hide BlockBytes, SizeOf;
    if from < |blocks| {
      BlockBytesSize(from, blocks[from]);
      BlocksFromSize(blocks, from + 1);
    }
  }

  /** The predicted size of an output is the number of bytes that are hashed. */
  lemma OutputBytesSize(blocks: seq<Block>)
    ensures |OutputBytes(blocks)| == FrameSize(blocks)
  {
    BlocksFromSize(blocks, 0);
  }

  /** framedBlockSize: the size, or nothing when it does not fit 64 bits. */
  method FramedBlockSize(kind: nat, mime: nat, detail: nat, payload: int64) returns (r: Checked)
    requires kind <= 16 && mime + 8 <= MAX_INT64 && detail + 8 <= MAX_INT64
    ensures payload < 0 ==> r == Overflow
    ensures payload >= 0 ==>
      r == if BlockSize(kind, mime, detail, payload) <= MAX_INT64 then Exact(BlockSize(kind, mime, detail, payload)) else Overflow
  {
    if payload < 0 {
      return Overflow;
    }
    var size: int64 := 8;
    var tags: seq<int64> := [8 + kind, 8 + mime, 8 + detail];
    for i := 0 to 3
      invariant size == 8 + (if i > 0 then 8 + kind else 0) + (if i > 1 then 8 + mime else 0) + (if i > 2 then 8 + detail else 0)
    {
      var next := Add64(size, tags[i]);
      if next.Overflow? {
        return Overflow;
      }
      size := next.value;
    }
    var chunks := payload / FRAME_CHUNK;
    if payload % FRAME_CHUNK != 0 {
      chunks := chunks + 1;
    }
    var overhead := Mul64(chunks, 8);
    if overhead.Overflow? {
      return Overflow;
    }
    var rest: seq<int64> := [overhead.value, payload, 8, 8, 8 + 5];
    ghost var base := size;
    for i := 0 to 5
      invariant size == base + (if i > 0 then overhead.value else 0) + (if i > 1 then payload else 0)
        + (if i > 2 then 8 else 0) + (if i > 3 then 8 else 0) + (if i > 4 then 13 else 0)
    {
      var next := Add64(size, rest[i]);
      if next.Overflow? {
        return Overflow;
      }
      size := next.value;
    }
    r := Exact(size);
  }

  // ---- feeding the hash in one go ----

  datatype Fed = Fed(bytes: Bytes) | TooLong

  /** frameHashEnc.write: refuses, feeding nothing, when the count would overflow. */
  function Feed(fed: Fed, p: Bytes): Fed
  {
    if fed.TooLong? || |fed.bytes| + |p| > MAX_INT64 then TooLong else Fed(fed.bytes + p)
  }

  ghost predicate Counted(fed: Fed)
  {
    fed.Fed? ==> |fed.bytes| <= MAX_INT64
  }

  lemma FeedNothing(fed: Fed)
    requires Counted(fed)
    ensures Feed(fed, []) == fed
  {
    if fed.Fed? {
      assert fed.bytes + [] == fed.bytes;
    }
  }

  lemma FeedTwo(fed: Fed, p: Bytes, q: Bytes)
    ensures Feed(Feed(fed, p), q) == Feed(fed, p + q)
  {
    if fed.Fed? {
      assert (fed.bytes + p) + q == fed.bytes + (p + q);
    }
  }

  method FeedFramed(fed: Fed, p: Bytes) returns (r: Fed)
    ensures r == Feed(fed, Framed(p))
  {
    FeedTwo(fed, U64(|p|), p);
    r := Feed(Feed(fed, U64(|p|)), p);
  }

  method FeedPayload(fed: Fed, payload: Bytes) returns (r: Fed)
    ensures r == Feed(fed, Chunks(payload))
  {
    r := Feed(fed, []);
    FeedTwo(fed, [], Chunks(payload));
    assert payload[0..] == payload && [] + Chunks(payload) == Chunks(payload);
    var off := 0;
    while off < |payload|
      invariant 0 <= off <= |payload|
      invariant Counted(r)
      invariant Feed(fed, Chunks(payload)) == Feed(r, Chunks(payload[off..]))
      decreases |payload| - off
    {
      var end := off + FRAME_CHUNK;
      if end > |payload| {
        end := |payload|;
      }
      ghost var tail := payload[off..];
      assert tail[..end - off] == payload[off..end];
      assert tail[end - off..] == payload[end..];
      assert Chunks(tail) == Framed(payload[off..end]) + Chunks(payload[end..]);
      FeedTwo(r, Framed(payload[off..end]), Chunks(payload[end..]));
      r := FeedFramed(r, payload[off..end]);
      off := end;
    }
    assert payload[off..] == [];
    FeedNothing(r);
  }

  method FeedBlock(fed: Fed, i: nat, b: Block) returns (r: Fed)
    ensures r == Feed(fed, BlockBytes(i, b))
  {
    r := Feed(fed, U64(i));
    FeedTwo(fed, U64(i), Framed(b.Kind()));
    r := FeedFramed(r, b.Kind());
    FeedTwo(fed, U64(i) + Framed(b.Kind()), Framed(b.Mime()));
    r := FeedFramed(r, b.Mime());
    FeedTwo(fed, U64(i) + Framed(b.Kind()) + Framed(b.Mime()), Framed(b.Detail()));
    r := FeedFramed(r, b.Detail());
    r := FeedBody(fed, r, BlockHead(i, b), b.Payload());
  }

  method FeedBody(ghost start: Fed, fed: Fed, ghost head: Bytes, payload: Bytes) returns (r: Fed)
    requires fed == Feed(start, head)
    ensures r == Feed(start, head + Chunks(payload) + BlockTail(|payload|))
  {
    hide Chunks, Feed;
    FeedTwo(start, head, Chunks(payload));
    r := FeedPayload(fed, payload);
    ghost var body := head + Chunks(payload);
    FeedTwo(start, body, U64(0));
    r := Feed(r, U64(0));
    FeedTwo(start, body + U64(0), U64(|payload|));
    r := Feed(r, U64(|payload|));
    FeedTwo(start, body + U64(0) + U64(|payload|), Framed(BLOCK_BOUNDARY));
    r := FeedFramed(r, BLOCK_BOUNDARY);
    assert body + U64(0) + U64(|payload|) + Framed(BLOCK_BOUNDARY) == body + BlockTail(|payload|);
  }

  /** digestBlocks: the bytes fed to the hash, refused only when their number overflows. */
  method DigestBlocks(blocks: seq<Block>) returns (r: Fed)
    ensures r == if FrameSize(blocks) <= MAX_INT64 then Fed(OutputBytes(blocks)) else TooLong
  {
    hide BlockBytes;
    r := FeedFramed(Fed([]), OUTPUT_DOMAIN);
    FeedTwo(Fed([]), Framed(OUTPUT_DOMAIN), U64(OUTPUT_VERSION));
    r := Feed(r, U64(OUTPUT_VERSION));
    FeedTwo(Fed([]), Framed(OUTPUT_DOMAIN) + U64(OUTPUT_VERSION), U64(|blocks|));
    r := Feed(r, U64(|blocks|));
    FeedTwo(Fed([]), OutputHead(|blocks|), BlocksFrom(blocks, 0));
    for i := 0 to |blocks|
      invariant Counted(r)
      invariant Feed(Fed([]), OutputBytes(blocks)) == Feed(r, BlocksFrom(blocks, i))
    {
      FeedTwo(r, BlockBytes(i, blocks[i]), BlocksFrom(blocks, i + 1));
      r := FeedBlock(r, i, blocks[i]);
    }
    FeedNothing(r);
    assert [] + OutputBytes(blocks) == OutputBytes(blocks);
    OutputBytesSize(blocks);
  }

  // ---- feeding the hash piece by piece ----

  datatype Hashed = Hashed(size: int64, fed: Bytes) | Unhashable

  /** The frame of one text block before its payload. */
  function TextHead(): Bytes
  {
    OutputHead(1) + BlockHead(0, Text([]))
  }

  /** Cutting off a whole number of chunks and framing the next one. */
  lemma {:induction false} ChunksExtend(p: Bytes, next: Bytes)
    requires |p| % FRAME_CHUNK == 0 && 0 < |next| <= FRAME_CHUNK
    ensures Chunks(p + next) == Chunks(p) + Framed(next)
  {
    hide Framed;
    if p == [] {
      assert p + next == next && next[..|next|] == next && next[|next|..] == [];
      assert Framed(next) + [] == [] + Framed(next);
    } else {
      assert (p + next)[..FRAME_CHUNK] == p[..FRAME_CHUNK];
      assert (p + next)[FRAME_CHUNK..] == p[FRAME_CHUNK..] + next;
      ChunksExtend(p[FRAME_CHUNK..], next);
      Assoc(Framed(p[..FRAME_CHUNK]), Chunks(p[FRAME_CHUNK..]), Framed(next));
    }
  }

  lemma OneBlock(b: Block)
    ensures BlocksFrom([b], 0) == BlockBytes(0, b) && SizesFrom([b], 0) == SizeOf(b)
  {
    hide BlockBytes, SizeOf;
    assert BlocksFrom([b], 1) == [] && SizesFrom([b], 1) == 0;
    assert BlockBytes(0, b) + [] == BlockBytes(0, b);
  }

  lemma TextFrame(text: Bytes)
    ensures OutputBytes([Text(text)]) == TextHead() + Chunks(text) + BlockTail(|text|)
  {
    hide BlockTail, Chunks, OutputHead, Framed, U64;
    OneBlock(Text(text));
    var head := BlockHead(0, Text(text));
    assert head == BlockHead(0, Text([]));
    assert OutputHead(1) + (head + Chunks(text) + BlockTail(|text|)) == OutputHead(1) + head + Chunks(text) + BlockTail(|text|);
  }

  /** A hash fed as text arrives, whatever the sizes of the pieces. `text` is everything
      written so far. */
  class StreamHasher {
    var fed: Bytes
    var pending: Bytes
    var total: int64
    var done: bool
    ghost var text: Bytes

    /** Whole chunks have been fed, the rest is pending. */
    ghost predicate Loaded()
      reads this
    {
      && |pending| < FRAME_CHUNK && |pending| <= |text| && (|text| - |pending|) % FRAME_CHUNK == 0
      && pending == text[|text| - |pending|..]
      && fed == TextHead() + Chunks(text[..|text| - |pending|])
    }

    ghost predicate Valid()
      reads this
    {
      total == |text| && (!done ==> Loaded())
    }

    constructor ()
      ensures Valid() && !done && text == []
    {
      fed := TextHead();
      pending := [];
      total := 0;
      done := false;
      text := [];
    }

    method Emit(chunk: Bytes)
      modifies this`fed
      ensures fed == old(fed) + Framed(chunk)
    {
      fed := fed + U64(|chunk|);
      fed := fed + chunk;
    }

    /** One turn of the write loop that sends a whole chunk straight on. */
    method SendChunk(p: Bytes) returns (rest: Bytes)
      requires Loaded() && pending == [] && |p| >= FRAME_CHUNK
      modifies this`fed, this`text
      ensures Loaded() && text + rest == old(text) + p && |rest| < |p|
    {
      hide TextHead, Framed, Chunks;
      assert text[..|text|] == text;
      ChunksExtend(text, p[..FRAME_CHUNK]);
      Emit(p[..FRAME_CHUNK]);
      text := text + p[..FRAME_CHUNK];
      rest := p[FRAME_CHUNK..];
      assert p == p[..FRAME_CHUNK] + rest;
      assert text[..|text|] == text;
    }

    /** One turn of the write loop that fills the pending chunk. */
    method FillChunk(p: Bytes) returns (rest: Bytes)
      requires Loaded() && p != []
      modifies this`fed, this`text, this`pending
      ensures Loaded() && text + rest == old(text) + p && |rest| < |p|
    {
      hide TextHead, Framed, Chunks;
      var need := FRAME_CHUNK - |pending|;
      if need > |p| {
        need := |p|;
      }
      ghost var base := text[..|text| - |pending|];
      assert text == base + pending;
      pending := pending + p[..need];
      text := text + p[..need];
      rest := p[need..];
      assert p == p[..need] + rest;
      assert text == base + pending;
      assert text[..|text| - |pending|] == base && text[|text| - |pending|..] == pending;
      if |pending| == FRAME_CHUNK {
        ChunksExtend(base, pending);
        Emit(pending);
        pending := [];
        assert text[..|text|] == text;
      }
    }

    /** Refused, changing nothing, after finish or when the total would overflow. */
    method WriteLogical(p: Bytes) returns (ok: bool)
      requires Valid()
      modifies this
      ensures Valid() && done == old(done)
      ensures ok <==> !old(done) && |old(text)| + |p| <= MAX_INT64
      ensures text == if ok then old(text) + p else old(text)
    {
      if done {
        return false;
      }
      if |p| > MAX_INT64 {
        return false;
      }
      var next := Add64(total, |p|);
      if next.Overflow? {
        return false;
      }
      total := next.value;
      var todo := p;
      while todo != []
        invariant !done && total == |old(text)| + |p| && Loaded()
        invariant text + todo == old(text) + p
        decreases |todo|
      {
        if pending == [] && |todo| >= FRAME_CHUNK {
          todo := SendChunk(todo);
        } else {
          todo := FillChunk(todo);
        }
      }
      assert text + [] == text;
      ok := true;
    }

    /** The last, possibly short, chunk goes out. */
    method Flush()
      requires Loaded()
      modifies this`fed, this`pending
      ensures fed == TextHead() + Chunks(text)
    {
      hide TextHead, Framed;
      assert text[..|text|] == text;
      if pending != [] {
        ghost var base := text[..|text| - |pending|];
        assert text == base + pending;
        ChunksExtend(base, pending);
        Emit(pending);
        pending := [];
      }
    }

    /** Finishing feeds the hash exactly the bytes `DigestBlocks` feeds it for the whole text. */
    method Finish() returns (r: Hashed)
      requires Valid()
      modifies this
      ensures Valid() && done && text == old(text)
      ensures !old(done) && FrameSize([Text(text)]) <= MAX_INT64 ==>
        r == Hashed(FrameSize([Text(text)]), OutputBytes([Text(text)]))
      ensures old(done) || FrameSize([Text(text)]) > MAX_INT64 ==> r.Unhashable?
    {
      hide OutputBytes, TextHead, Chunks, U64, BlocksFrom, SizesFrom;
      if done {
        return Unhashable;
      }
      done := true;
      Flush();
      fed := fed + (U64(0) + U64(total) + U64(|BLOCK_BOUNDARY|) + BLOCK_BOUNDARY);
      TextFrame(text);
      OneBlock(Text(text));
      var framed := SingleTextFrameSize(total);
      if framed.Overflow? {
        return Unhashable;
      }
      r := Hashed(framed.value, fed);
    }
  }

  /** singleTextFrameSize. */
  method SingleTextFrameSize(textBytes: int64) returns (r: Checked)
    requires textBytes >= 0
    ensures r == if HEAD_SIZE + BlockSize(4, 0, 0, textBytes) <= MAX_INT64 then Exact(HEAD_SIZE + BlockSize(4, 0, 0, textBytes)) else Overflow
  {
    var block := FramedBlockSize(4, 0, 0, textBytes);
    if block.Overflow? {
      return Overflow;
    }
    r := Add64(HEAD_SIZE, block.value);
  }
}
