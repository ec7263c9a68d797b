/** Finalizing an output against a call's limits: inspection, the receipt of a collector,
    truncation, and the fixed output that stands in when nothing else fits
    (core/tools/output.go:68-190, 208-304, 385-402). */
module Finalize {
  import opened Utf8
  import opened Int64
  import opened Wrappers
  import opened Frame
  import opened Marker
  import opened Truncate
  import opened Collector
  import opened CollectorOutput

  const MAX_TAG_BYTES: nat := 4096
  const MIN_TEXT_BYTES: nat := 512
  const MIN_FRAMED_BYTES: nat := 1024

  datatype Verdict = Passed | OverBudget | Rejected

  datatype Stats = Stats(originalBytes: int64, keptBytes: int64, sha: Bytes, truncated: bool)

  datatype Final =
    | Sealed(blocks: seq<Block>, isError: bool, stats: Stats, retained: Bytes)
    | Budgeted
    | Refused

  // ---- inspection ----

  /** What looking into the bytes of an image finds. */
  datatype Inspection = Picture(width: nat, height: nat) | TooComplex | Malformed

  /** The image decoder: what it finds for a media type and the bytes of an image. */
  type Look = (Bytes, Bytes) -> Inspection

  ghost predicate TagsFit(blocks: seq<Block>)
  {
    forall i :: 0 <= i < |blocks| ==> |blocks[i].Mime()| <= MAX_TAG_BYTES && |blocks[i].Detail()| <= MAX_TAG_BYTES
  }

  ghost predicate MetadataFits(blocks: seq<Block>, limits: Limits)
  {
    forall i :: 0 <= i < |blocks| ==> |blocks[i].Mime()| <= limits.maxMetadataBytes && |blocks[i].Detail()| <= limits.maxMetadataBytes
  }

  lemma {:induction false} ImageTotalGrows(blocks: seq<Block>, i: nat)
    requires i <= |blocks|
    ensures ImageTotal(blocks[..i]) <= ImageTotal(blocks)
    decreases |blocks|
  {
    if i < |blocks| {
      assert blocks[..|blocks| - 1][..i] == blocks[..i];
      ImageTotalGrows(blocks[..|blocks| - 1], i);
    } else {
      assert blocks[..i] == blocks;
    }
  }

  lemma NoImages(blocks: seq<Block>)
    ensures ImageTotal(blocks[..0]) == 0 && blocks[..|blocks|] == blocks && SizesFrom(blocks, |blocks|) == 0
  {
  }

  lemma ImageTotalNext(blocks: seq<Block>, i: nat)
    requires i < |blocks|
    ensures ImageTotal(blocks[..i + 1]) == ImageTotal(blocks[..i]) + ImageBytes(blocks[i])
    ensures ImageTotal(blocks[..i + 1]) <= ImageTotal(blocks)
  {
    assert blocks[..i + 1][..i] == blocks[..i];
    ImageTotalGrows(blocks, i + 1);
  }

  lemma SizesGoOn(blocks: seq<Block>, i: nat)
    requires i < |blocks|
    ensures SizesFrom(blocks, i) == SizeOf(blocks[i]) + SizesFrom(blocks, i + 1)
  {
  }

  /** The structure of an output that may be looked into. */
  ghost predicate Structured(blocks: seq<Block>, limits: Limits)
  {
    && TagsFit(blocks) && MetadataFits(blocks, limits)
    && ImageTotal(blocks) <= limits.maxImageBytes && Truncate.Inspected(blocks)
  }

  /** preflightContent: sizes are added up block by block and given up as soon as they pass a
      limit, so no larger output is ever hashed. */
  method Preflight(blocks: seq<Block>, limits: Limits) returns (r: Verdict)
    ensures r == Passed <==> Structured(blocks, limits)
    ensures r == Rejected ==> !TagsFit(blocks)
    ensures r == OverBudget ==>
      !MetadataFits(blocks, limits) || ImageTotal(blocks) > limits.maxImageBytes || !Truncate.Inspected(blocks)
  {
    NoImages(blocks);
    hide SizeOf, SizesFrom, ImageTotal, ImageBytes;
    var framed: int64 := HEAD_SIZE;
    var images: int64 := 0;
    for i := 0 to |blocks|
      invariant FrameSize(blocks) == framed + SizesFrom(blocks, i)
      invariant 0 <= framed <= INSPECTION_CEILING
      invariant 0 <= images == ImageTotal(blocks[..i]) <= limits.maxImageBytes
      invariant forall j :: 0 <= j < i ==> |blocks[j].Mime()| <= MAX_TAG_BYTES && |blocks[j].Detail()| <= MAX_TAG_BYTES
      invariant forall j :: 0 <= j < i ==> |blocks[j].Mime()| <= limits.maxMetadataBytes && |blocks[j].Detail()| <= limits.maxMetadataBytes
    {
      var b := blocks[i];
      ImageTotalNext(blocks, i);
      SizesGoOn(blocks, i);
      if |b.Mime()| > MAX_TAG_BYTES || |b.Detail()| > MAX_TAG_BYTES {
        return Rejected;
      }
      if |b.Mime()| > limits.maxMetadataBytes || |b.Detail()| > limits.maxMetadataBytes {
        return OverBudget;
      }
      SizeIs(b);
      if |b.Payload()| > MAX_INT64 {
        return OverBudget;
      }
      if b.Image? {
        var more := Add64(images, |b.data|);
        if more.Overflow? || more.value > limits.maxImageBytes {
          return OverBudget;
        }
        images := more.value;
      }
      var size := FramedBlockSize(|b.Kind()|, |b.Mime()|, |b.Detail()|, |b.Payload()|);
      if size.Overflow? {
        return OverBudget;
      }
      var next := Add64(framed, size.value);
      if next.Overflow? || next.value > INSPECTION_CEILING {
        return OverBudget;
      }
      framed := next.value;
    }
    r := Passed;
  }

  lemma SizeIs(b: Block)
    ensures SizeOf(b) == BlockSize(|b.Kind()|, |b.Mime()|, |b.Detail()|, |b.Payload()|)
    ensures |b.Payload()| <= SizeOf(b) && |b.Kind()| <= 16
    ensures ImageBytes(b) == if b.Text? then 0 else |b.Payload()|
  {
  }

  /** How one block is judged once the structure is known to be in order. */
  function Judge(look: Look, b: Block, limits: Limits): Verdict
  {
    if b.Text? then (if Utf8.Valid(b.text) then Passed else Rejected)
    else
      var found := look(b.mime, b.data);
      if found.TooComplex? then OverBudget
      else if found.Malformed? || b.detail !in DETAILS then Rejected
      else if found.width > limits.maxImageWidth || found.height > limits.maxImageHeight then OverBudget
      else if found.width * found.height > limits.maxImagePixels then OverBudget
      else Passed
  }

  /** Text that is valid, or an image that can be read, asks for a known detail and is within the
      limits for width, height and pixels. */
  predicate SoundBlock(look: Look, b: Block, limits: Limits)
  {
    match b
    case Text(text) => Utf8.Valid(text)
    case Image(mime, detail, data) =>
      var found := look(mime, data);
      found.Picture? && detail in DETAILS && found.width <= limits.maxImageWidth && found.height <= limits.maxImageHeight
      && found.width * found.height <= limits.maxImagePixels
  }

  /** A block passes exactly when it is sound; a text is never over budget, and an image that
      cannot be read or asks for an unknown detail is never called over budget. */
  lemma JudgeExactly(look: Look, b: Block, limits: Limits)
    ensures Judge(look, b, limits) == Passed <==> SoundBlock(look, b, limits)
    ensures b.Image? ==>
      var found := look(b.mime, b.data);
      Judge(look, b, limits) == Rejected <==> found.Malformed? || (found.Picture? && b.detail !in DETAILS)
    ensures b.Text? ==> Judge(look, b, limits) != OverBudget
  {
  }

  /** What inspectContent accepts. */
  ghost predicate Accepted(look: Look, blocks: seq<Block>, limits: Limits)
  {
    0 < |blocks| <= limits.maxBlocks && Structured(blocks, limits) && forall i :: 0 <= i < |blocks| ==> SoundBlock(look, blocks[i], limits)
  }

  lemma AcceptedValid(look: Look, blocks: seq<Block>, limits: Limits)
    requires Accepted(look, blocks, limits)
    ensures AllValid(blocks) && Truncate.Inspected(blocks)
  {
    hide Utf8.Valid, TagsFit, MetadataFits;
    forall i | 0 <= i < |blocks| && blocks[i].Text? ensures Utf8.Valid(blocks[i].text) {
      assert SoundBlock(look, blocks[i], limits);
    }
  }

  /** inspectContent: an output is accepted, over budget or invalid; what comes first in the
      order of the blocks decides between the last two. */
  method InspectContent(look: Look, blocks: seq<Block>, limits: Limits) returns (r: Verdict)
    ensures r == Passed <==> Accepted(look, blocks, limits)
    ensures r == Rejected ==> blocks == [] || !TagsFit(blocks) || exists i :: 0 <= i < |blocks| && Judge(look, blocks[i], limits) == Rejected
    ensures |blocks| > limits.maxBlocks ==> r == OverBudget
    ensures 0 < |blocks| <= limits.maxBlocks && Structured(blocks, limits) && r != Passed ==>
      exists i :: 0 <= i < |blocks| && Judge(look, blocks[i], limits) == r && forall j :: 0 <= j < i ==> Judge(look, blocks[j], limits) == Passed
  {
    hide Structured, TagsFit, Judge, SoundBlock;
    if |blocks| == 0 {
      return Rejected;
    }
    if |blocks| > limits.maxBlocks {
      return OverBudget;
    }
    r := Preflight(blocks, limits);
    if r != Passed {
      return;
    }
    for i := 0 to |blocks|
      invariant forall j :: 0 <= j < i ==> Judge(look, blocks[j], limits) == Passed
      invariant forall j :: 0 <= j < i ==> SoundBlock(look, blocks[j], limits)
    {
      JudgeExactly(look, blocks[i], limits);
      r := Judge(look, blocks[i], limits);
      if r != Passed {
        return;
      }
    }
    r := Passed;
  }

  // ---- the receipt ----

  /** verifyReceipt. */
  method VerifyReceipt(sha: Bytes -> Digest, blocks: seq<Block>, isError: bool, receipt: Receipt, limits: Limits) returns (ok: bool)
    ensures ok <==> ReceiptMatches(sha, blocks, isError, receipt, limits)
  {
    if receipt.limits != limits {
      return false;
    }
    if receipt.isError != isError {
      return false;
    }
    var fed := DigestBlocks(blocks);
    if fed.TooLong? {
      return false;
    }
    OutputBytesSize(blocks);
    if |fed.bytes| != receipt.keptBytes || sha(fed.bytes) != receipt.retained {
      return false;
    }
    if receipt.originalBytes < 0 || receipt.keptBytes < 0 || |receipt.originalSHA| != 64 {
      return false;
    }
    if !receipt.truncated && (receipt.originalBytes != receipt.keptBytes || receipt.originalSHA != receipt.retained) {
      return false;
    }
    ok := true;
  }

  // ---- finalize ----

  ghost predicate Honest(sha: Bytes -> Digest, r: Final)
    requires r.Sealed?
  {
    && r.stats.keptBytes == FrameSize(r.blocks) && FrameSize(r.blocks) <= MAX_INT64
    && r.retained == sha(OutputBytes(r.blocks))
    && (!r.stats.truncated ==> r.stats.originalBytes == r.stats.keptBytes && r.stats.sha == r.retained)
  }

  /** How an accepted output without a receipt ends. */
  ghost predicate SettledBy(sha: Bytes -> Digest, blocks: seq<Block>, limits: Limits, r: Final)
  {
    var original := sha(OutputBytes(blocks));
    if Fits(blocks, limits) then
      r.Sealed? && r.blocks == blocks && !r.stats.truncated
    else if HasText(blocks) && FitsAt(blocks, 0, FormatMarker(0, FrameSize(blocks), original), limits) then
      r.Sealed? && r.stats.truncated && r.stats.originalBytes == FrameSize(blocks) && r.stats.sha == original
      && exists keep :: Truncation(blocks, keep, FrameSize(blocks), original, limits, r.blocks)
    else
      r.Budgeted?
  }

  /** A sealed output stays within the frame limit and its statistics are those of its bytes.
      Without a receipt the outcome is settled by the content alone: unchanged when it fits,
      truncated when a marker fits in place of all text, else over budget. With one, the
      content goes through unchanged exactly when the receipt matches and the frame fits. */
  method FinalizeOutput(sha: Bytes -> Digest, look: Look, blocks: seq<Block>, isError: bool, receipt: Option<Receipt>, limits: Limits) returns (r: Final)
    ensures r.Sealed? ==> Honest(sha, r) && r.isError == isError && FrameSize(r.blocks) <= limits.maxFramedBytes && AllValid(r.blocks)
    ensures r.Sealed? ==> Accepted(look, blocks, limits)
    ensures Accepted(look, blocks, limits) && receipt.None? ==> SettledBy(sha, blocks, limits, r)
    ensures Accepted(look, blocks, limits) && receipt.Some? ==>
      if !ReceiptMatches(sha, blocks, isError, receipt.value, limits) then r.Refused?
      else if FrameSize(blocks) > limits.maxFramedBytes then r.Budgeted?
      else r.Sealed? && r.blocks == blocks && r.stats.originalBytes == receipt.value.originalBytes && r.stats.sha == receipt.value.originalSHA
  {
    hide *;
    var verdict := InspectContent(look, blocks, limits);
    match verdict
    case Rejected => return Refused;
    case OverBudget => return Budgeted;
    case Passed =>
      match receipt
      case Some(given) =>
        var matches := VerifyReceipt(sha, blocks, isError, given, limits);
        if !matches {
          return Refused;
        }
        r := SealReceipted(sha, look, blocks, isError, given, limits);
      case None =>
        r := SealPlain(sha, look, blocks, isError, limits);
  }

  method SealReceipted(sha: Bytes -> Digest, look: Look, blocks: seq<Block>, isError: bool, given: Receipt, limits: Limits) returns (r: Final)
    requires Accepted(look, blocks, limits) && ReceiptMatches(sha, blocks, isError, given, limits)
    ensures r.Sealed? ==> Honest(sha, r) && r.isError == isError && AllValid(r.blocks)
    ensures if FrameSize(blocks) > limits.maxFramedBytes then r.Budgeted?
      else r.Sealed? && r.blocks == blocks && r.stats.originalBytes == given.originalBytes && r.stats.sha == given.originalSHA
  {
    AcceptedValid(look, blocks, limits);
    hide Accepted, AllValid, OutputBytes, FrameSize;
    var fed := DigestBlocks(blocks);
    OutputBytesSize(blocks);
    var kept := |fed.bytes|;
    if kept > limits.maxFramedBytes {
      return Budgeted;
    }
    r := Seal(sha, blocks, isError, kept, sha(fed.bytes), given.originalBytes, given.originalSHA, given.truncated);
  }

  method SealPlain(sha: Bytes -> Digest, look: Look, blocks: seq<Block>, isError: bool, limits: Limits) returns (r: Final)
    requires Accepted(look, blocks, limits)
    ensures r.Sealed? ==> Honest(sha, r) && r.isError == isError && FrameSize(r.blocks) <= limits.maxFramedBytes && AllValid(r.blocks)
    ensures SettledBy(sha, blocks, limits, r)
  {
    AcceptedValid(look, blocks, limits);
    hide Accepted, AllValid, OutputBytes, FrameSize, HasText, FitsAt, FormatMarker, TextTotal, Truncation;
    InspectedSize(blocks);
    var fed := DigestBlocks(blocks);
    OutputBytesSize(blocks);
    var size, digest := |fed.bytes|, sha(fed.bytes);
    if TextTotal(blocks) > limits.maxTextBytes || size > limits.maxFramedBytes {
      var next, keep := TruncateBlocks(blocks, limits, size, digest);
      if next.None? {
        return Budgeted;
      }
      TruncationFits(blocks, keep, size, digest, limits, next.value);
      var refed := DigestBlocks(next.value);
      OutputBytesSize(next.value);
      r := Seal(sha, next.value, isError, |refed.bytes|, sha(refed.bytes), size, digest, true);
    } else {
      r := Seal(sha, blocks, isError, size, digest, size, digest, false);
    }
  }

  lemma TruncationFits(blocks: seq<Block>, keep: nat, size: nat, sha: Digest, limits: Limits, out: seq<Block>)
    requires Truncation(blocks, keep, size, sha, limits, out)
    ensures Fits(out, limits) && AllValid(out)
  {
  }

  lemma InspectedSize(blocks: seq<Block>)
    requires Truncate.Inspected(blocks)
    ensures FrameSize(blocks) <= MAX_INT64
  {
  }

  /** The statistics of a sealed output. */
  function Seal(sha: Bytes -> Digest, blocks: seq<Block>, isError: bool, kept: int64, retained: Bytes, original: int64, originalSHA: Bytes, truncated: bool): (r: Final)
    ensures r.Sealed? && r.blocks == blocks && r.isError == isError && r.retained == retained && r.stats.keptBytes == kept
    ensures truncated ==> r.stats == Stats(original, kept, originalSHA, true)
    ensures !r.stats.truncated ==> r.stats.originalBytes == kept && r.stats.sha == retained
    ensures !truncated && kept == original ==> !r.stats.truncated
  {
    var cut := truncated || kept != original;
    Sealed(blocks, isError, if cut then Stats(original, kept, originalSHA, true) else Stats(kept, kept, retained, false), retained)
  }

  // ---- what always fits ----

  /** The fixed output for an exceeded budget: with the smallest limits a call can have it is
      sealed as it is, so every call ends with some output. */
  method BudgetOutput(sha: Bytes -> Digest, look: Look, limits: Limits) returns (r: Final)
    requires limits.maxBlocks >= 1 && limits.maxTextBytes >= MIN_TEXT_BYTES && limits.maxFramedBytes >= MIN_FRAMED_BYTES
    ensures r.Sealed? && r.blocks == [Text(BUDGET_ERROR)] && r.isError && !r.stats.truncated
    ensures FrameSize(r.blocks) <= limits.maxFramedBytes
  {
    hide *;
    BudgetErrorFits(look, limits);
    r := FinalizeOutput(sha, look, [Text(BUDGET_ERROR)], true, None, limits);
    Unchanged(sha, [Text(BUDGET_ERROR)], limits, r);
  }

  lemma Unchanged(sha: Bytes -> Digest, blocks: seq<Block>, limits: Limits, r: Final)
    requires SettledBy(sha, blocks, limits, r) && Fits(blocks, limits)
    ensures r.Sealed? && r.blocks == blocks && !r.stats.truncated
  {
  }

  lemma BudgetErrorFits(look: Look, limits: Limits)
    requires limits.maxBlocks >= 1 && limits.maxTextBytes >= MIN_TEXT_BYTES && limits.maxFramedBytes >= MIN_FRAMED_BYTES
    ensures Accepted(look, [Text(BUDGET_ERROR)], limits) && Fits([Text(BUDGET_ERROR)], limits)
  {
    hide Ascii;
    assert |BUDGET_ERROR| == 38;
    AsciiValid(BUDGET_ERROR);
    ShortTextFits(look, BUDGET_ERROR, limits);
  }

  lemma OneTextAccepted(look: Look, text: Bytes, limits: Limits)
    requires Utf8.Valid(text) && limits.maxBlocks >= 1 && Truncate.Inspected([Text(text)])
    ensures Accepted(look, [Text(text)], limits)
  {
    hide Utf8.Valid, Truncate.Inspected;
    var blocks := [Text(text)];
    assert blocks[..0] == [] && ImageBytes(blocks[0]) == 0;
    assert ImageTotal(blocks) == 0;
    assert blocks[0].Mime() == [] && blocks[0].Detail() == [];
    assert TagsFit(blocks) && MetadataFits(blocks, limits);
    assert SoundBlock(look, blocks[0], limits);
  }

  lemma ShortTextFits(look: Look, text: Bytes, limits: Limits)
    requires |text| <= MIN_TEXT_BYTES && Utf8.Valid(text)
    requires limits.maxBlocks >= 1 && limits.maxTextBytes >= MIN_TEXT_BYTES && limits.maxFramedBytes >= MIN_FRAMED_BYTES
    ensures Accepted(look, [Text(text)], limits) && Fits([Text(text)], limits)
  {
    hide Utf8.Valid, FrameSize, TextTotal, Accepted;
    TextFrameSizeIs(text);
    OneTextTotal(text);
    OneTextAccepted(look, text, limits);
  }

  /** Whatever a collector hands over under a call's own limits, finalizing seals unchanged. */
  method CollectorAccepted(c: TextCollector, sha: Bytes -> Digest, look: Look, limits: Limits, metadata: Metadata, isError: bool) returns (made: Outcome, r: Final)
    requires c.Writing()
    requires metadata.Canonical? ==> Utf8.Valid(metadata.bytes)
    requires limits.maxBlocks >= 1 && limits.maxFramedBytes <= INSPECTION_CEILING
    modifies c, c.hasher
    ensures made.Collected? ==> r.Sealed? && r.blocks == [Text(made.text)]
    ensures made.Collected? ==> r.stats.originalBytes == made.receipt.originalBytes && r.stats.sha == made.receipt.originalSHA
  {
    hide *;
    made := FinishCollector(c, sha, limits, metadata, isError);
    if !made.Collected? {
      return made, Budgeted;
    }
    CollectedAccepted(look, made.text, limits);
    r := FinalizeOutput(sha, look, [Text(made.text)], isError, Some(made.receipt), limits);
  }

  lemma CollectedAccepted(look: Look, text: Bytes, limits: Limits)
    requires Utf8.Valid(text) && WithinLimits(|text|, limits) && limits.maxBlocks >= 1 && limits.maxFramedBytes <= INSPECTION_CEILING
    ensures Accepted(look, [Text(text)], limits) && FrameSize([Text(text)]) <= limits.maxFramedBytes
  {
    hide Utf8.Valid, Accepted;
    TextFrameSizeIs(text);
    OneTextAccepted(look, text, limits);
  }
}
