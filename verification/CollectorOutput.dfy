/** Finishing a collector: the trailer, the truncation marker, the receipt, and why the
    executor accepts what a collector hands it (core/tools/collector.go:78-120, 307-383,
    414-477, core/tools/output.go:137-159). */
module CollectorOutput {
  import opened Utf8
  import opened Int64
  import opened Wrappers
  import opened Escape
  import opened Frame
  import opened Marker
  import opened Window
  import opened Collector

  const MAX_META_BYTES: nat := 4096
  const METADATA_BEGIN: Bytes := Ascii("\n@serpe-tool-metadata-begin:v1\n")
  const METADATA_END: Bytes := Ascii("\n@serpe-tool-metadata-end:v1 bytes=")
  const BUDGET_ERROR: Bytes := Ascii("tool output exceeded configured limits")

  function Trailer(metadata: Bytes): Bytes
  {
    METADATA_BEGIN + metadata + METADATA_END + Hex(|metadata|, 8)
  }

  /** The trailer holds the metadata between its two lines, and ends in their length. */
  lemma TrailerNames(metadata: Bytes)
    requires |metadata| <= MAX_META_BYTES
    ensures exists n: Bytes ::
      && |n| == 8 && ReadHex(n) == Some(|metadata|)
      && Trailer(metadata) == Ascii("\n@serpe-tool-metadata-begin:v1\n") + metadata + Ascii("\n@serpe-tool-metadata-end:v1 bytes=") + n
  {
    hide Hex, Ascii, ReadHex;
    assert Power16(8) == 0x1_0000_0000;
    HexReads(|metadata|, 8);
  }

  const TRAILER_RESERVE: nat := |METADATA_BEGIN| + MAX_META_BYTES + |METADATA_END| + 8

  function TextFrameSize(n: nat): nat
  {
    HEAD_SIZE + BlockSize(4, 0, 0, n)
  }

  predicate WithinLimits(n: nat, limits: Limits)
  {
    n <= limits.maxTextBytes && TextFrameSize(n) <= limits.maxFramedBytes
  }

  // ---- the body budget ----

  predicate BodyFits(body: nat, reserve: nat, limits: Limits)
  {
    WithinLimits(body + reserve, limits)
  }

  lemma LongerFramesLonger(a: nat, b: nat)
    requires a <= b
    ensures TextFrameSize(a) <= TextFrameSize(b)
  {
    assert a / FRAME_CHUNK <= b / FRAME_CHUNK;
  }

  /** maxCollectorBody: the largest body that fits the limits beside a reserve for the trailer
      and the marker. */
  method MaxCollectorBody(limits: Limits, reserve: nat) returns (body: nat)
    requires reserve <= 0x1_0000
    ensures forall k: nat :: BodyFits(k, reserve, limits) ==> k <= body
    ensures body > 0 ==> BodyFits(body, reserve, limits)
  {
    hide TextFrameSize;
    var hi := limits.maxTextBytes - reserve;
    if hi < 0 {
      return 0;
    }
    var lo := 0;
    while lo < hi
      invariant 0 <= lo <= hi <= limits.maxTextBytes - reserve
      invariant lo > 0 ==> BodyFits(lo, reserve, limits)
      invariant forall k: nat :: BodyFits(k, reserve, limits) ==> k <= hi
      decreases hi - lo
    {
      var mid := lo + (hi - lo + 1) / 2;
      var framed := SingleTextFrameSize(mid + reserve);
      SameSize(mid + reserve);
      if framed.Exact? && framed.value <= limits.maxFramedBytes {
        lo := mid;
      } else {
        forall k: nat | BodyFits(k, reserve, limits) ensures k < mid {
          if mid <= k {
            LongerFramesLonger(mid + reserve, k + reserve);
          }
        }
        hi := mid - 1;
      }
    }
    body := lo;
  }

  lemma SameSize(n: nat)
    ensures TextFrameSize(n) == HEAD_SIZE + BlockSize(4, 0, 0, n)
  {
  }

  // ---- the output ----

  datatype Receipt = Receipt(
    limits: Limits, originalBytes: int64, originalSHA: Bytes, keptBytes: int64,
    truncated: bool, isError: bool, retained: Bytes, metadata: Bytes)

  datatype Metadata = Canonical(bytes: Bytes) | TooLarge | Malformed

  datatype Outcome =
    | Collected(text: Bytes, isError: bool, receipt: Receipt)
    | Budget              // the fixed error output, unreceipted
    | Fatal(reason: string)

  /** What verifyReceipt demands of the blocks that come with a receipt. */
  ghost predicate ReceiptMatches(sha: Bytes -> Digest, blocks: seq<Block>, isError: bool, r: Receipt, limits: Limits)
  {
    && r.limits == limits
    && r.isError == isError
    && FrameSize(blocks) <= MAX_INT64
    && r.keptBytes == FrameSize(blocks) && r.retained == sha(OutputBytes(blocks))
    && r.originalBytes >= 0 && r.keptBytes >= 0 && |r.originalSHA| == 64
    && (!r.truncated ==> r.originalBytes == r.keptBytes && r.originalSHA == r.retained)
  }

  /** renderCollectorTruncationWithKept in HeadTail mode. */
  function Rendered(body: Bytes, head: nat, trailer: Bytes, marker: Bytes): Bytes
    requires head <= |body|
  {
    body[..head] + marker + body[head..] + trailer
  }

  /** What a finished collector returns for the stream `stream`: the stream itself when its
      bounded view is all of it, else its head, a marker that names the final frame size and
      the frame and digest of the full text, and its tail; then the metadata trailer. */
  ghost predicate Describes(sha: Bytes -> Digest, stream: Bytes, budget: nat, metadata: Bytes, text: Bytes, r: Receipt)
  {
    var whole := stream + Trailer(metadata);
    var body, head := Kept(stream, budget), HeadLen(stream, budget);
    && r.originalBytes == TextFrameSize(|whole|)
    && r.originalSHA == sha(OutputBytes([Text(whole)]))
    && r.truncated == (|stream| > budget)
    && head <= |body|
    && text == if |stream| <= budget then whole
               else body[..head] + FormatMarker(TextFrameSize(|text|), r.originalBytes, sha(OutputBytes([Text(whole)]))) + body[head..] + Trailer(metadata)
  }

  /** Metadata that parsed, and a stream whose frame size fits 64 bits. */
  predicate Acceptable(metadata: Metadata, stream: Bytes)
  {
    metadata.Canonical? && |metadata.bytes| <= MAX_META_BYTES && TextFrameSize(|stream + Trailer(metadata.bytes)|) <= MAX_INT64
  }

  lemma TextFrameSizeIs(text: Bytes)
    ensures FrameSize([Text(text)]) == TextFrameSize(|text|)
  {
    OneBlock(Text(text));
  }

  lemma TrailerFits(metadata: Bytes)
    requires |metadata| <= MAX_META_BYTES
    ensures |Trailer(metadata)| <= TRAILER_RESERVE
  {
  }

  lemma TrailerValid(metadata: Bytes)
    requires Utf8.Valid(metadata)
    ensures Utf8.Valid(Trailer(metadata))
  {
    hide Utf8.Valid;
    AsciiValid(METADATA_BEGIN);
    AsciiValid(METADATA_END);
    AsciiValid(Hex(|metadata|, 8));
    ValidConcat(METADATA_BEGIN, metadata);
    ValidConcat(METADATA_BEGIN + metadata, METADATA_END);
    ValidConcat(METADATA_BEGIN + metadata + METADATA_END, Hex(|metadata|, 8));
  }

  lemma RenderedValid(stream: Bytes, budget: nat, trailer: Bytes, marker: Bytes)
    requires Utf8.Valid(stream) && Utf8.Valid(trailer) && AllAscii(marker) && |stream| > budget
    ensures HeadLen(stream, budget) <= |Kept(stream, budget)|
    ensures Utf8.Valid(Rendered(Kept(stream, budget), HeadLen(stream, budget), trailer, marker))
  {
    hide Utf8.Valid, AlignDown, AlignUp;
    SplitKept(stream, budget);
    var h, t := Prefix(stream, budget / 2), Suffix(stream, budget - budget / 2);
    AsciiValid(marker);
    ValidConcat(h, marker);
    ValidConcat(h + marker, t);
    ValidConcat(h + marker + t, trailer);
  }

  /** Output: whatever a collector returns passes the receipt check under its own limits, stays
      within them, is valid UTF-8, and describes the whole stream. With room for a body the
      size check at the end never fails. */
  method FinishCollector(c: TextCollector, sha: Bytes -> Digest, limits: Limits, metadata: Metadata, isError: bool) returns (r: Outcome)
    requires c.Writing()
    requires metadata.Canonical? ==> Utf8.Valid(metadata.bytes)
    modifies c, c.hasher
    ensures r.Collected? ==> metadata.Canonical?
    ensures r.Collected? ==> ReceiptMatches(sha, [Text(r.text)], isError, r.receipt, limits)
    ensures r.Collected? ==> WithinLimits(|r.text|, limits) && Utf8.Valid(r.text)
    ensures r.Collected? ==> Describes(sha, EscapeAll(old(c.raw)), c.bodyBudget, metadata.bytes, r.text, r.receipt)
    ensures BodyFits(c.bodyBudget, TRAILER_RESERVE + MARKER_SIZE, limits) && Acceptable(metadata, EscapeAll(old(c.raw))) ==> r.Collected?
    ensures r.Fatal? ==> metadata.Malformed? || |EscapeAll(old(c.raw))| > MAX_INT64
  {
    hide Kept, HeadLen, EscapeSoFar, EscapeAll, Utf8.Valid, Trailer, TextFrameSize, FormatMarker, OutputBytes, FrameSize, StreamHasher.Loaded;
    var done := c.FinishBody();
    FrameGrows(|EscapeAll(c.raw)| + if metadata.Canonical? then |Trailer(metadata.bytes)| else 0);
    if !done {
      return Fatal("collector total overflow");
    }
    match metadata
    case Malformed => return Fatal("collector metadata");
    case TooLarge => return Budget;
    case Canonical(bytes) =>
      if |bytes| > MAX_META_BYTES {
        return Budget;
      }
      var trailer := Trailer(bytes);
      ghost var whole := c.logical + trailer;
      TextFrameSizeIs(whole);
      FrameGrows(|whole|);
      TrailerFits(bytes);
      TrailerValid(bytes);
      var written := c.hasher.WriteLogical(trailer);
      if !written {
        return Budget;
      }
      var original := c.hasher.Finish();
      if original.Unhashable? {
        return Budget;
      }
      KeptIsBounded(c.logical, c.bodyBudget);
      EscapeAllValid(c.raw);
      r := Assemble(c.window, c.headBytes, c.omitted || c.total != |c.window|, c.logical, c.bodyBudget, trailer, bytes,
                    original, sha, limits, isError);
  }

  lemma FrameGrows(n: nat)
    ensures n < TextFrameSize(n)
  {
  }

  /** From the retained body to the receipted output. */
  method Assemble(body: Bytes, head: nat, truncated: bool, ghost stream: Bytes, ghost budget: nat, trailer: Bytes, metadata: Bytes,
                  original: Hashed, sha: Bytes -> Digest, limits: Limits, isError: bool) returns (r: Outcome)
    requires Utf8.Valid(stream) && body == Kept(stream, budget) && head == HeadLen(stream, budget)
    requires head <= |body| && |body| <= budget && |body| <= |stream|
    requires truncated == (|stream| > budget || |stream| != |body|)
    requires trailer == Trailer(metadata) && |trailer| <= TRAILER_RESERVE && Utf8.Valid(trailer)
    requires TextFrameSize(|stream + trailer|) <= MAX_INT64
    requires original == Hashed(TextFrameSize(|stream + trailer|), OutputBytes([Text(stream + trailer)]))
    ensures r.Collected? || r.Budget?
    ensures r.Collected? ==> ReceiptMatches(sha, [Text(r.text)], isError, r.receipt, limits)
    ensures r.Collected? ==> WithinLimits(|r.text|, limits) && Utf8.Valid(r.text)
    ensures r.Collected? ==> Describes(sha, stream, budget, metadata, r.text, r.receipt)
    ensures BodyFits(budget, TRAILER_RESERVE + MARKER_SIZE, limits) ==> r.Collected?
  {
    hide HeadLen, Utf8.Valid, Trailer, TextFrameSize, FormatMarker, OutputBytes, FrameSize, Prefix, Tail, Suffix;
    var originalSHA := sha(original.fed);
    var text := body + trailer;
    if truncated {
      text := Rendered(body, head, trailer, FormatMarker(0, original.size, originalSHA));
    }
    if BodyFits(budget, TRAILER_RESERVE + MARKER_SIZE, limits) {
      assert |text| <= budget + TRAILER_RESERVE + MARKER_SIZE;
      LongerFramesLonger(|text|, budget + TRAILER_RESERVE + MARKER_SIZE);
    }
    if |text| > limits.maxTextBytes {
      return Budget;
    }
    var framed := SingleTextFrameSize(|text|);
    SameSize(|text|);
    if framed.Overflow? || framed.value > limits.maxFramedBytes {
      return Budget;
    }
    var kept := framed.value;
    if truncated {
      // The marker's numbers have a fixed width, so naming the size does not change it.
      text := Rendered(body, head, trailer, FormatMarker(kept, original.size, originalSHA));
      RenderedValid(stream, budget, trailer, FormatMarker(kept, original.size, originalSHA));
    } else {
      assert body == stream;
      ValidConcat(stream, trailer);
    }
    TextFrameSizeIs(text);
    var fed := DigestBlocks([Text(text)]);
    r := Collected(text, isError, Receipt(limits, original.size, originalSHA, kept, truncated, isError, sha(fed.bytes), metadata));
  }
}
