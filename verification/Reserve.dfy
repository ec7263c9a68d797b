/** When the check of a finished tool turn against the budget left of the run can fail. The
    quota reserves one byte for each byte a tool may return, but JSON may need six, and the
    provider's state counts only afterwards (runtime/loops/message_budget.go:30-91,
    runtime/loops/stream.go:414-447, 566-595). */
module Reserve {
  import opened Utf8
  import opened Int64
  import opened Wrappers
  import opened Frame
  import opened Marker
  import opened Truncate
  import opened CollectorOutput
  import opened Finalize
  import opened Wire
  import opened Budget

  // ---- what is left for the blocks of an output ----

  datatype Room = Room(blocks: nat, frame: nat, text: nat, image: nat)

  function TextBytes(b: Block): nat
  {
    if b.Text? then |b.text| else 0
  }

  predicate Takes(room: Room, b: Block)
  {
    room.blocks > 0 && SizeOf(b) <= room.frame && TextBytes(b) <= room.text && ImageBytes(b) <= room.image
  }

  function Without(room: Room, b: Block): Room
    requires Takes(room, b)
  {
    Room(room.blocks - 1, room.frame - SizeOf(b), room.text - TextBytes(b), room.image - ImageBytes(b))
  }

  ghost predicate TakesAll(room: Room, blocks: seq<Block>)
    decreases |blocks|
  {
    blocks == [] || (Takes(room, blocks[0]) && TakesAll(Without(room, blocks[0]), blocks[1..]))
  }

  /** An output of valid texts and of images from a gallery. */
  ghost predicate Shown(gallery: seq<Block>, blocks: seq<Block>)
  {
    forall i :: 0 <= i < |blocks| ==> if blocks[i].Text? then Valid(blocks[i].text) else blocks[i] in gallery
  }

  predicate AllImages(gallery: seq<Block>)
  {
    forall i :: 0 <= i < |gallery| ==> gallery[i].Image?
  }

  /** The JSON text of some blocks, with a comma after each. */
  function Weight(blocks: seq<Block>): nat
  {
    if blocks == [] then 0 else |JsonBlock(blocks[0])| + 1 + Weight(blocks[1..])
  }

  // ---- the heaviest output ----

  function Max(a: nat, b: nat): nat
  {
    if a < b then b else a
  }

  /** A text that JSON writes with six bytes for each of its own. */
  function Controls(n: nat): (r: Bytes)
    ensures |r| == n
  {
    if n == 0 then [] else [1] + Controls(n - 1)
  }

  /** The heaviest weight of the blocks that fit: each is a text of control characters or an
      image from the gallery. */
  function Heaviest(gallery: seq<Block>, room: Room): nat
    decreases room.blocks, 2, 0
  {
    if room.blocks == 0 then 0 else Max(WithText(gallery, room, room.text), WithImage(gallery, room, |gallery|))
  }

  function WithText(gallery: seq<Block>, room: Room, n: nat): nat
    decreases room.blocks, 1, n
  {
    var here := StartingWith(gallery, room, Text(Controls(n)));
    if n == 0 then here else Max(here, WithText(gallery, room, n - 1))
  }

  function WithImage(gallery: seq<Block>, room: Room, n: nat): nat
    requires n <= |gallery|
    decreases room.blocks, 1, n
  {
    if n == 0 then 0 else Max(StartingWith(gallery, room, gallery[n - 1]), WithImage(gallery, room, n - 1))
  }

  function StartingWith(gallery: seq<Block>, room: Room, first: Block): nat
    decreases room.blocks, 0, 0
  {
    if Takes(room, first) then |JsonBlock(first)| + 1 + Heaviest(gallery, Without(room, first)) else 0
  }

  lemma {:induction false} ControlsBody(n: nat)
    ensures Valid(Controls(n)) && |Body(Controls(n))| == 6 * n
  {
    if n > 0 {
      var s := Controls(n);
      assert RuneLen(s) == 1 && StepLen(s) == 1;
      assert s[1..] == Controls(n - 1);
      ControlsBody(n - 1);
    }
  }

  lemma TextFieldSize(text: Bytes)
    ensures |JsonBlock(Text(text))| == 15 + (if text == [] then 0 else 10 + |Body(text)|)
  {
    hide Ascii, Body;
    LiteralSizes();
  }

  /** No text of a length is heavier than its control characters. */
  lemma ControlsAreWorst(text: Bytes)
    ensures |JsonBlock(Text(text))| <= |JsonBlock(Text(Controls(|text|)))|
    ensures SizeOf(Text(text)) == SizeOf(Text(Controls(|text|)))
  {
    hide Body, JsonBlock;
    TextFieldSize(text);
    TextFieldSize(Controls(|text|));
    BodySize(text);
    ControlsBody(|text|);
  }

  lemma {:induction false} WithTextCovers(gallery: seq<Block>, room: Room, n: nat, k: nat)
    requires k <= n
    ensures StartingWith(gallery, room, Text(Controls(k))) <= WithText(gallery, room, n)
  {
    hide StartingWith;
    if k < n {
      WithTextCovers(gallery, room, n - 1, k);
    }
  }

  lemma {:induction false} WithImageCovers(gallery: seq<Block>, room: Room, n: nat, i: nat)
    requires i < n <= |gallery|
    ensures StartingWith(gallery, room, gallery[i]) <= WithImage(gallery, room, n)
  {
    hide StartingWith;
    if i < n - 1 {
      WithImageCovers(gallery, room, n - 1, i);
    }
  }

  lemma FirstCovered(gallery: seq<Block>, room: Room, b: Block)
    requires Takes(room, b) && (b.Image? ==> b in gallery)
    ensures |JsonBlock(b)| + 1 + Heaviest(gallery, Without(room, b)) <= Heaviest(gallery, room)
  {
    hide JsonBlock, SizeOf, WithText, WithImage;
    if b.Text? {
      ControlsAreWorst(b.text);
      var worst := Text(Controls(|b.text|));
      assert Takes(room, worst) && Without(room, worst) == Without(room, b);
      WithTextCovers(gallery, room, room.text, |b.text|);
    } else {
      var i :| 0 <= i < |gallery| && gallery[i] == b;
      WithImageCovers(gallery, room, |gallery|, i);
    }
  }

  /** Nothing that fits is heavier. */
  lemma {:induction false} HeaviestBounds(gallery: seq<Block>, room: Room, blocks: seq<Block>)
    requires TakesAll(room, blocks) && Shown(gallery, blocks)
    ensures Weight(blocks) <= Heaviest(gallery, room)
    decreases |blocks|
  {
    hide JsonBlock, SizeOf, Heaviest;
    if blocks != [] {
      HeaviestBounds(gallery, Without(room, blocks[0]), blocks[1..]);
      FirstCovered(gallery, room, blocks[0]);
    }
  }

  lemma {:induction false} WithTextAttained(gallery: seq<Block>, room: Room, n: nat) returns (k: nat)
    ensures k <= n && StartingWith(gallery, room, Text(Controls(k))) == WithText(gallery, room, n)
  {
    hide StartingWith;
    if n == 0 || StartingWith(gallery, room, Text(Controls(n))) == WithText(gallery, room, n) {
      k := n;
    } else {
      k := WithTextAttained(gallery, room, n - 1);
    }
  }

  lemma {:induction false} WithImageAttained(gallery: seq<Block>, room: Room, n: nat) returns (i: nat)
    requires n <= |gallery| && WithImage(gallery, room, n) > 0
    ensures i < n && StartingWith(gallery, room, gallery[i]) == WithImage(gallery, room, n)
  {
    hide StartingWith;
    if StartingWith(gallery, room, gallery[n - 1]) == WithImage(gallery, room, n) {
      i := n - 1;
    } else {
      i := WithImageAttained(gallery, room, n - 1);
    }
  }

  lemma FirstAttained(gallery: seq<Block>, room: Room) returns (b: Block)
    requires room.blocks > 0 && AllImages(gallery)
    ensures StartingWith(gallery, room, b) == Heaviest(gallery, room)
    ensures if b.Text? then Valid(b.text) else b in gallery
  {
    hide StartingWith, WithText, WithImage;
    if WithImage(gallery, room, |gallery|) > WithText(gallery, room, room.text) {
      var i := WithImageAttained(gallery, room, |gallery|);
      b := gallery[i];
    } else {
      var k := WithTextAttained(gallery, room, room.text);
      ControlsBody(k);
      b := Text(Controls(k));
    }
  }

  /** Some blocks that fit are as heavy. */
  lemma {:induction false} HeaviestAttained(gallery: seq<Block>, room: Room) returns (blocks: seq<Block>)
    requires AllImages(gallery)
    ensures TakesAll(room, blocks) && Shown(gallery, blocks) && Weight(blocks) == Heaviest(gallery, room)
    decreases room.blocks
  {
    hide JsonBlock, SizeOf, Valid;
    blocks := [];
    if room.blocks > 0 {
      var b := FirstAttained(gallery, room);
      hide Heaviest;
      if Takes(room, b) {
        var rest := HeaviestAttained(gallery, Without(room, b));
        blocks := [b] + rest;
        assert blocks[1..] == rest;
      }
    }
  }

  // ---- outputs within a share ----

  /** What a call may return under its limits. */
  ghost predicate Returns(gallery: seq<Block>, blocks: seq<Block>, limits: Limits)
  {
    && 0 < |blocks| <= limits.maxBlocks && Fits(blocks, limits)
    && ImageTotal(blocks) <= limits.maxImageBytes && Shown(gallery, blocks)
  }

  function RoomOf(limits: Limits): Room
    requires limits.maxTextBytes >= 0 && limits.maxFramedBytes >= HEAD_SIZE
  {
    Room(limits.maxBlocks, limits.maxFramedBytes - HEAD_SIZE, limits.maxTextBytes, limits.maxImageBytes)
  }

  lemma {:induction false} ImageTotalFront(blocks: seq<Block>)
    requires blocks != []
    ensures ImageTotal(blocks) == ImageBytes(blocks[0]) + ImageTotal(blocks[1..])
  {
    hide ImageBytes;
    var n := |blocks| - 1;
    if n > 0 {
      ImageTotalFront(blocks[..n]);
      assert blocks[1..][..n - 1] == blocks[..n][1..];
    } else {
      assert blocks[..n] == [] == blocks[1..];
    }
  }

  lemma {:induction false} TakesAllMeans(room: Room, blocks: seq<Block>)
    ensures TakesAll(room, blocks) <==>
      |blocks| <= room.blocks && Sizes(blocks) <= room.frame && TextTotal(blocks) <= room.text && ImageTotal(blocks) <= room.image
    decreases |blocks|
  {
    hide SizeOf;
    if blocks != [] {
      ImageTotalFront(blocks);
      if Takes(room, blocks[0]) {
        TakesAllMeans(Without(room, blocks[0]), blocks[1..]);
      }
    }
  }

  lemma ReturnsMeans(gallery: seq<Block>, blocks: seq<Block>, limits: Limits)
    requires limits.maxTextBytes >= 0 && limits.maxFramedBytes >= HEAD_SIZE
    ensures Returns(gallery, blocks, limits) <==> blocks != [] && TakesAll(RoomOf(limits), blocks) && Shown(gallery, blocks)
  {
    hide TakesAll, Sizes, TextTotal, ImageTotal, Shown, SizesFrom;
    FrameSizeIs(blocks);
    TakesAllMeans(RoomOf(limits), blocks);
  }

  /** Room for at least one empty text. */
  predicate Roomy(limits: Limits)
  {
    limits.maxBlocks >= 1 && limits.maxTextBytes >= 0 && limits.maxFramedBytes >= HEAD_SIZE + 65
  }

  lemma SomethingFits(gallery: seq<Block>, limits: Limits)
    requires Roomy(limits)
    ensures Heaviest(gallery, RoomOf(limits)) >= 16
  {
    hide JsonBlock, Heaviest;
    TextFieldSize([]);
    FirstCovered(gallery, RoomOf(limits), Text([]));
  }

  /** The heaviest result of a call beyond its empty error form. */
  function Extra(gallery: seq<Block>, limits: Limits): nat
    requires Roomy(limits)
  {
    SomethingFits(gallery, limits);
    Heaviest(gallery, RoomOf(limits)) - 16
  }

  lemma {:induction false} JoinWeight(blocks: seq<Block>)
    requires blocks != []
    ensures |Join(JsonBlocks(blocks))| + 1 == Weight(blocks)
  {
    hide JsonBlock;
    if |blocks| > 1 {
      JoinWeight(blocks[1..]);
    }
    JoinCons(JsonBlock(blocks[0]), JsonBlocks(blocks[1..]));
  }

  lemma ResultWeight(call: Call, isError: bool, blocks: seq<Block>)
    requires blocks != []
    ensures |JsonResult(ToolResult(call.id, call.name, isError, blocks))| + 16 + (if isError then 0 else 16)
      == |JsonResult(ToolResult(call.id, call.name, true, [Text([])]))| + Weight(blocks)
  {
    hide JsonField, Ascii, Body, JsonBlock, JsonBlocks, Join, Weight;
    JoinWeight(blocks);
    JoinWeight([Text([])]);
    WeightOfOne(Text([]));
    TextFieldSize([]);
    assert |IS_ERROR| == 16;
  }

  lemma WeightOfOne(b: Block)
    ensures Weight([b]) == |JsonBlock(b)| + 1
  {
    hide JsonBlock;
    assert [b][1..] == [];
  }

  // ---- the heaviest message ----

  /** Every call has room for something within the limit of one output. */
  ghost predicate GoodShares(limits: Limits, shares: seq<nat>)
  {
    && limits.maxBlocks >= 1 && limits.maxTextBytes >= 0
    && forall i :: 0 <= i < |shares| ==> HEAD_SIZE + 65 <= shares[i] <= limits.maxFramedBytes
  }

  function Extras(gallery: seq<Block>, limits: Limits, shares: seq<nat>): nat
    requires GoodShares(limits, shares)
  {
    if shares == [] then 0
    else Extra(gallery, limits.(maxFramedBytes := shares[0])) + Extras(gallery, limits, shares[1..])
  }

  /** What a batch may return: one output for each call, within its share. */
  ghost predicate BatchReturns(gallery: seq<Block>, limits: Limits, shares: seq<nat>, outs: seq<Option<Finished>>)
    requires GoodShares(limits, shares)
  {
    && |outs| == |shares|
    && forall i :: 0 <= i < |outs| ==> outs[i].Some? && Returns(gallery, outs[i].value.blocks, limits.(maxFramedBytes := shares[i]))
  }

  lemma OneBound(gallery: seq<Block>, limits: Limits, call: Call, out: Finished)
    requires Roomy(limits) && Returns(gallery, out.blocks, limits)
    ensures |JsonResult(ToolResult(call.id, call.name, out.isError, out.blocks))|
      <= |JsonResult(ToolResult(call.id, call.name, true, [Text([])]))| + Extra(gallery, limits)
  {
    hide JsonResult, Returns, TakesAll, Shown, Weight, Heaviest;
    ReturnsMeans(gallery, out.blocks, limits);
    HeaviestBounds(gallery, RoomOf(limits), out.blocks);
    ResultWeight(call, out.isError, out.blocks);
  }

  lemma OneAttained(gallery: seq<Block>, limits: Limits, call: Call) returns (out: Finished)
    requires Roomy(limits) && AllImages(gallery)
    ensures Returns(gallery, out.blocks, limits)
    ensures |JsonResult(ToolResult(call.id, call.name, out.isError, out.blocks))|
      == |JsonResult(ToolResult(call.id, call.name, true, [Text([])]))| + Extra(gallery, limits)
  {
    hide JsonResult, Returns, TakesAll, Shown, Heaviest, JsonBlock, AllImages;
    var blocks := HeaviestAttained(gallery, RoomOf(limits));
    SomethingFits(gallery, limits);
    ReturnsMeans(gallery, blocks, limits);
    out := Finished(blocks, true);
    ResultWeight(call, true, blocks);
  }

  lemma {:induction false} ResultsBound(gallery: seq<Block>, limits: Limits, shares: seq<nat>, calls: seq<Call>, outs: seq<Option<Finished>>)
    requires |calls| == |shares| && GoodShares(limits, shares) && BatchReturns(gallery, limits, shares, outs)
    ensures |ResultsOf(calls, outs)| == |calls|
    ensures |Join(JsonResults(ResultsOf(calls, outs)))| <= |Join(JsonResults(Minimum(calls)))| + Extras(gallery, limits, shares)
  {
    hide JsonResult, Join, JsonResults, Returns, Extra;
    if calls == [] {
      assert ResultsOf(calls, outs) == Minimum(calls);
    } else {
      var rest, restOuts := calls[1..], outs[1..];
      ResultsBound(gallery, limits, shares[1..], rest, restOuts);
      var least := ToolResult(calls[0].id, calls[0].name, true, [Text([])]);
      ResultsCons(least, Minimum(rest));
      var out := outs[0].value;
      OneBound(gallery, limits.(maxFramedBytes := shares[0]), calls[0], out);
      ResultsCons(ToolResult(calls[0].id, calls[0].name, out.isError, out.blocks), ResultsOf(rest, restOuts));
    }
  }

  lemma {:induction false} ResultsAttained(gallery: seq<Block>, limits: Limits, shares: seq<nat>, calls: seq<Call>) returns (outs: seq<Option<Finished>>)
    requires |calls| == |shares| && GoodShares(limits, shares) && AllImages(gallery)
    ensures BatchReturns(gallery, limits, shares, outs) && |ResultsOf(calls, outs)| == |calls|
    ensures |Join(JsonResults(ResultsOf(calls, outs)))| == |Join(JsonResults(Minimum(calls)))| + Extras(gallery, limits, shares)
  {
    hide JsonResult, Join, JsonResults, Returns, Extra;
    if calls == [] {
      outs := [];
      assert ResultsOf(calls, outs) == Minimum(calls);
    } else {
      var rest := calls[1..];
      var restOuts := ResultsAttained(gallery, limits, shares[1..], rest);
      var least := ToolResult(calls[0].id, calls[0].name, true, [Text([])]);
      ResultsCons(least, Minimum(rest));
      var out := OneAttained(gallery, limits.(maxFramedBytes := shares[0]), calls[0]);
      outs := [Some(out)] + restOuts;
      assert outs[1..] == restOuts;
      ResultsCons(ToolResult(calls[0].id, calls[0].name, out.isError, out.blocks), ResultsOf(rest, restOuts));
    }
  }

  /** The longest message a batch can store. */
  function LongestMessage(gallery: seq<Block>, limits: Limits, shares: seq<nat>, calls: seq<Call>): nat
    requires GoodShares(limits, shares)
  {
    |JsonMessage(Minimum(calls))| + Extras(gallery, limits, shares)
  }

  /** Exactly when the check against the reserved budget cannot fail, whatever the calls return
      within their shares: when the longest message fits both remainders, the second one beside
      the provider's state. */
  lemma ReserveNeverExceededIff(gallery: seq<Block>, limits: Limits, shares: seq<nat>, calls: seq<Call>,
                                assistantBytes: nat, providerState: nat, retainedRemaining: int, canonicalRemaining: int)
    requires |calls| == |shares| && GoodShares(limits, shares) && AllImages(gallery)
    ensures (forall outs :: BatchReturns(gallery, limits, shares, outs) ==>
                WithinReserve(ResultsOf(calls, outs), assistantBytes, providerState, retainedRemaining, canonicalRemaining))
      <==> (var longest := assistantBytes + LongestMessage(gallery, limits, shares, calls);
            longest <= retainedRemaining && longest + providerState + 32 <= canonicalRemaining)
  {
    hide Join, JsonResults, BatchReturns, Extras, ResultsOf, Ascii, Minimum;
    var worst := ResultsAttained(gallery, limits, shares, calls);
    OneForEach(gallery, limits, shares, worst);
    forall outs | BatchReturns(gallery, limits, shares, outs)
      ensures |outs| == |calls| && |JsonMessage(ResultsOf(calls, outs))| <= |JsonMessage(ResultsOf(calls, worst))|
    {
      OneForEach(gallery, limits, shares, outs);
      ResultsBound(gallery, limits, shares, calls, outs);
    }
  }

  lemma OneForEach(gallery: seq<Block>, limits: Limits, shares: seq<nat>, outs: seq<Option<Finished>>)
    requires GoodShares(limits, shares) && BatchReturns(gallery, limits, shares, outs)
    ensures |outs| == |shares|
  {
  }

  // ---- the heaviest output in closed form ----

  function TextFrame(n: nat): nat
  {
    65 + 8 * ChunkCount(n) + n
  }

  function TextWeight(n: nat): nat
  {
    if n == 0 then 16 else 26 + 6 * n
  }

  lemma TextIs(n: nat)
    ensures SizeOf(Text(Controls(n))) == TextFrame(n) && |JsonBlock(Text(Controls(n)))| + 1 == TextWeight(n)
  {
    hide JsonBlock, Body;
    TextFieldSize(Controls(n));
    ControlsBody(n);
  }

  /** The longest text whose frame fits, searched downwards from n. */
  function LongestText(frame: nat, n: nat): nat
  {
    if n == 0 || TextFrame(n) <= frame then n else LongestText(frame, n - 1)
  }

  lemma {:induction false} LongestIs(frame: nat, n: nat, k: nat)
    requires k <= n && TextFrame(k) <= frame
    ensures k <= LongestText(frame, n) <= n && TextFrame(LongestText(frame, n)) <= frame
  {
    hide ChunkCount;
    if k < n && TextFrame(n) > frame {
      LongestIs(frame, n - 1, k);
    }
  }

  lemma ChunksOfBoth(a: nat, b: nat)
    ensures ChunkCount(a + b + 57) <= ChunkCount(a) + ChunkCount(b) + 1
  {
  }

  /** One text is heavier than two in the same frame. */
  lemma TwoIntoOne(a: nat, b: nat)
    ensures TextFrame(a + b + 57) <= TextFrame(a) + TextFrame(b)
    ensures TextWeight(a) + TextWeight(b) <= TextWeight(a + b + 57)
  {
    hide ChunkCount;
    ChunksOfBoth(a, b);
  }

  lemma {:induction false} IntoOne(blocks: seq<Block>) returns (n: nat)
    requires blocks != [] && forall i :: 0 <= i < |blocks| ==> blocks[i].Text?
    ensures TextFrame(n) <= Sizes(blocks) && Weight(blocks) <= TextWeight(n)
    ensures |blocks| == 1 ==> n == TextTotal(blocks)
  {
    hide JsonBlock, SizeOf, TextFrame, TextWeight;
    var text := blocks[0].text;
    ControlsAreWorst(text);
    TextIs(|text|);
    if |blocks| == 1 {
      assert blocks[1..] == [];
      n := |text|;
    } else {
      var rest := IntoOne(blocks[1..]);
      TwoIntoOne(|text|, rest);
      n := |text| + rest + 57;
    }
  }

  /** Without images, and when the limit on text does not bind or there is only one block, the
      heaviest output is a single text of control characters. */
  lemma HeaviestText(room: Room)
    requires room.blocks > 0 && room.frame >= 65
    requires room.blocks == 1 || LongestText(room.frame, room.frame) <= room.text
    ensures Heaviest([], room) == TextWeight(Truncate.Min(LongestText(room.frame, room.frame), room.text))
  {
    hide JsonBlock, Heaviest, TakesAll, Weight, Sizes, TextTotal, SizeOf, TextFrame, TextWeight, LongestText;
    var best := LongestText(room.frame, room.frame);
    LongestFits(room.frame, 0);
    var n := Truncate.Min(best, room.text);
    Longer(n, best);
    TextIs(n);
    FirstCovered([], room, Text(Controls(n)));
    var blocks := HeaviestAttained([], room);
    TakesAllMeans(room, blocks);
    if blocks == [] {
      NoWeight();
    } else {
      var all := IntoOne(blocks);
      LongestFits(room.frame, all);
      Longer(all, n);
    }
  }

  lemma NoWeight()
    ensures Weight([]) == 0
  {
  }

  lemma LongestFits(frame: nat, n: nat)
    requires frame >= 65 && (n == 0 || TextFrame(n) <= frame)
    ensures n <= LongestText(frame, frame) && TextFrame(LongestText(frame, frame)) <= frame
  {
    LongestIs(frame, frame, n);
  }

  lemma Longer(a: nat, b: nat)
    requires a <= b
    ensures TextFrame(a) <= TextFrame(b) && TextWeight(a) <= TextWeight(b)
  {
  }

  // ---- over whole turns ----

  /** Images that a call may return: they pass inspection and have a JSON form. */
  ghost predicate GoodGallery(look: Look, gallery: seq<Block>, limits: Limits)
  {
    && TagsFit(gallery) && MetadataFits(gallery, limits)
    && forall i :: 0 <= i < |gallery| ==> gallery[i].Image? && SoundBlock(look, gallery[i], limits) && BlockEncodes(gallery[i])
  }

  /** Tools whose images come from the gallery; their texts may be anything. */
  ghost predicate FromTools(gallery: seq<Block>, raws: seq<Raw>, limits: Limits)
  {
    forall i :: 0 <= i < |raws| ==>
      HonestReceipt(raws[i], limits) && forall j :: 0 <= j < |raws[i].blocks| && raws[i].blocks[j].Image? ==> raws[i].blocks[j] in gallery
  }

  lemma TurnSharesGood(calls: seq<Call>, at: Setting)
    requires Configured(at) && Starts(calls, at)
    ensures GoodShares(at.limits, TurnShares(calls, at)) && Sum(TurnShares(calls, at)) <= TurnQuota(calls, at)
    ensures 6 * TurnQuota(calls, at) + Fixed(calls) <= at.ceiling
  {
    hide Admissible, Fixed, Sum;
    var quota, n := TurnQuota(calls, at), |calls|;
    DivisionFacts(quota, n);
    SharesSum(quota, at.limits.maxFramedBytes, n, n);
    var shares := TurnShares(calls, at);
    assert shares == AllShares(quota, at.limits.maxFramedBytes, n, n);
    forall i | 0 <= i < n ensures HEAD_SIZE + 65 <= shares[i] <= at.limits.maxFramedBytes {
      assert shares[i] == Share(quota, at.limits.maxFramedBytes, n, i);
    }
  }

  /** The shares of a turn are all it may have: no number within all limits is larger than their
      sum, unless one output may not take its share. */
  lemma SharesUseQuota(calls: seq<Call>, at: Setting)
    requires Configured(at) && Starts(calls, at)
    ensures WithinLimitsOf(calls, at, Sum(TurnShares(calls, at)))
    ensures (forall i :: 0 <= i < |calls| ==> TurnShares(calls, at)[i] < at.limits.maxFramedBytes) ==>
      forall q :: WithinLimitsOf(calls, at, q) ==> q <= Sum(TurnShares(calls, at))
  {
    var quota, n, most := TurnQuota(calls, at), |calls|, at.limits.maxFramedBytes;
    TurnSharesGood(calls, at);
    QuotaIsLargest(calls, at);
    DivisionFacts(quota, n);
    SharesSum(quota, most, n, n);
    assert TurnShares(calls, at) == AllShares(quota, most, n, n);
    hide Admissible, Fixed, Sum, TurnQuota, JsonMessage, Minimum;
    forall i | 0 <= i < n ensures TurnShares(calls, at)[i] == Share(quota, most, n, i) {
    }
  }

  /** What settled calls return is what a batch may return. */
  lemma SettledReturns(look: Look, gallery: seq<Block>, calls: seq<Call>, raws: seq<Raw>, at: Setting, outs: seq<Option<Finished>>)
    requires |calls| == |raws| && Configured(at) && Starts(calls, at) && FromTools(gallery, raws, at.limits)
    requires GoodShares(at.limits, TurnShares(calls, at)) && SettledAll(look, calls, raws, at, outs)
    ensures BatchReturns(gallery, at.limits, TurnShares(calls, at), outs)
  {
    hide Starts, TurnShares, KeptWhole, FrameSize, TextTotal, ImageTotal, Valid, Accepted;
  }

  /** The outputs themselves, as tools without a receipt return them. */
  function AsReturned(outs: seq<Option<Finished>>): (r: seq<Raw>)
    requires forall i :: 0 <= i < |outs| ==> outs[i].Some?
  {
    seq(|outs|, i requires 0 <= i < |outs| => Raw(outs[i].value.blocks, outs[i].value.isError, None))
  }

  lemma ReturnedWhole(look: Look, gallery: seq<Block>, limits: Limits, out: Finished)
    requires GoodGallery(look, gallery, limits) && Returns(gallery, out.blocks, limits) && limits.maxFramedBytes <= INSPECTION_CEILING
    ensures KeptWhole(look, Raw(out.blocks, out.isError, None), limits)
    ensures Settled(look, Raw(out.blocks, out.isError, None), limits, Some(out))
    ensures forall i :: 0 <= i < |out.blocks| ==> BlockEncodes(out.blocks[i])
  {
    hide FrameSize, TextTotal, ImageTotal, Valid;
    var blocks := out.blocks;
    forall i | 0 <= i < |blocks|
      ensures SoundBlock(look, blocks[i], limits) && BlockEncodes(blocks[i])
      ensures |blocks[i].Mime()| <= MAX_TAG_BYTES && |blocks[i].Detail()| <= MAX_TAG_BYTES
      ensures |blocks[i].Mime()| <= limits.maxMetadataBytes && |blocks[i].Detail()| <= limits.maxMetadataBytes
    {
      if blocks[i].Image? {
        var k :| 0 <= k < |gallery| && gallery[k] == blocks[i];
      }
    }
  }

  lemma SameGallery(look: Look, gallery: seq<Block>, limits: Limits, share: int64)
    requires GoodGallery(look, gallery, limits)
    ensures GoodGallery(look, gallery, limits.(maxFramedBytes := share))
  {
    hide BlockEncodes;
  }

  lemma {:induction false} ResultsEncode(calls: seq<Call>, outs: seq<Option<Finished>>)
    requires |outs| == |calls|
    requires forall i :: 0 <= i < |calls| ==> ResultEncodes(Minimum(calls)[i])
    requires forall i :: 0 <= i < |outs| ==>
      outs[i].Some? && outs[i].value.blocks != [] && forall j :: 0 <= j < |outs[i].value.blocks| ==> BlockEncodes(outs[i].value.blocks[j])
    ensures |ResultsOf(calls, outs)| == |calls| && forall i :: 0 <= i < |calls| ==> ResultEncodes(ResultsOf(calls, outs)[i])
  {
    hide BlockEncodes, Valid;
    if calls != [] {
      var rest := Minimum(calls[1..]);
      assert forall i :: 0 <= i < |rest| ==> rest[i] == Minimum(calls)[i + 1];
      ResultsEncode(calls[1..], outs[1..]);
      assert ResultEncodes(Minimum(calls)[0]);
    }
  }

  /** For outputs a batch may return there is a turn of tools that return them. */
  lemma TurnOf(look: Look, gallery: seq<Block>, calls: seq<Call>, at: Setting, outs: seq<Option<Finished>>) returns (raws: seq<Raw>, r: Turn)
    requires Configured(at) && Starts(calls, at) && GoodShares(at.limits, TurnShares(calls, at))
    requires GoodGallery(look, gallery, at.limits) && at.limits.maxFramedBytes <= INSPECTION_CEILING
    requires BatchReturns(gallery, at.limits, TurnShares(calls, at), outs)
    ensures |raws| == |calls| && FromTools(gallery, raws, at.limits) && TurnOutcome(look, calls, raws, at, r)
    ensures WithinReserve(ResultsOf(calls, outs), at.assistantBytes, at.providerState, at.retainedRemaining, at.canonicalRemaining)
      <==> !r.ReserveExceeded? && !r.SizeOverflow?
  {
    hide Admissible, TurnQuota, TurnShares, Returns, KeptWhole, Settled, GoodGallery, JsonMessage, ResultsOf, BlockEncodes, FrameSize, Fixed, Sum;
    raws := AsReturned(outs);
    forall i | 0 <= i < |outs|
      ensures Settled(look, raws[i], CallLimits(calls, at, i), outs[i])
      ensures outs[i].value.blocks != [] && forall j :: 0 <= j < |outs[i].value.blocks| ==> BlockEncodes(outs[i].value.blocks[j])
      ensures Shown(gallery, outs[i].value.blocks) && FrameSize(outs[i].value.blocks) <= TurnShares(calls, at)[i]
    {
      SameGallery(look, gallery, at.limits, TurnShares(calls, at)[i]);
      ReturnedWhole(look, gallery, CallLimits(calls, at, i), outs[i].value);
      ReturnsSome(gallery, outs[i].value.blocks, CallLimits(calls, at, i));
    }
    Encodable(calls, at);
    ResultsEncode(calls, outs);
    TurnSharesGood(calls, at);
    SessionCeilingHolds(calls, outs, TurnShares(calls, at), TurnQuota(calls, at), at.ceiling);
    r := Checked(ResultsOf(calls, outs), at);
    assert SettledAll(look, calls, raws, at, outs);
  }

  lemma Encodable(calls: seq<Call>, at: Setting)
    requires Configured(at) && Starts(calls, at)
    ensures forall i :: 0 <= i < |calls| ==> ResultEncodes(Minimum(calls)[i])
  {
    hide ResultEncodes, TurnQuota, JsonMessage, Minimum;
  }

  lemma ReturnsSome(gallery: seq<Block>, blocks: seq<Block>, limits: Limits)
    requires Returns(gallery, blocks, limits)
    ensures blocks != [] && Shown(gallery, blocks) && FrameSize(blocks) <= limits.maxFramedBytes
  {
    hide FrameSize, Shown, TextTotal, ImageTotal;
  }

  lemma Checked(results: seq<ToolResult>, at: Setting) returns (r: Turn)
    requires results != [] && forall i :: 0 <= i < |results| ==> ResultEncodes(results[i])
    requires |JsonMessage(results)| <= at.ceiling && at.assistantBytes >= 0 && at.providerState >= 0
    ensures CheckedAs(r, results, at) && !r.BatchFailed?
    ensures WithinReserve(results, at.assistantBytes, at.providerState, at.retainedRemaining, at.canonicalRemaining)
      <==> !r.ReserveExceeded? && !r.SizeOverflow?
  {
    hide JsonMessage, ResultEncodes;
    var size := |JsonMessage(results)|;
    if WithinReserve(results, at.assistantBytes, at.providerState, at.retainedRemaining, at.canonicalRemaining) {
      r := Stored(results, at.assistantBytes + size, at.assistantBytes + size + at.providerState + 32);
    } else if at.assistantBytes + size + at.providerState + 32 > MAX_INT64 {
      r := SizeOverflow;
    } else {
      r := ReserveExceeded;
    }
  }

  /** Exactly when no turn of a batch, whatever its tools return, fails for the budget that was
      reserved for it. */
  lemma TurnReserveIff(look: Look, gallery: seq<Block>, calls: seq<Call>, at: Setting)
    requires Configured(at) && Starts(calls, at)
    requires GoodGallery(look, gallery, at.limits) && at.limits.maxFramedBytes <= INSPECTION_CEILING
    ensures GoodShares(at.limits, TurnShares(calls, at))
    ensures (forall raws, r :: |raws| == |calls| && FromTools(gallery, raws, at.limits) && TurnOutcome(look, calls, raws, at, r) ==>
                !r.ReserveExceeded? && !r.SizeOverflow?)
      <==> (var longest := at.assistantBytes + LongestMessage(gallery, at.limits, TurnShares(calls, at), calls);
            longest <= at.retainedRemaining && longest + at.providerState + 32 <= at.canonicalRemaining)
  {
    hide Starts, TurnShares, GoodGallery, GoodShares, Returns, FromTools, TurnOutcome, LongestMessage, ResultsOf, WithinReserve, AllImages;
    TurnSharesGood(calls, at);
    var shares := TurnShares(calls, at);
    GalleryImages(look, gallery, at.limits);
    ReserveNeverExceededIff(gallery, at.limits, shares, calls, at.assistantBytes, at.providerState, at.retainedRemaining, at.canonicalRemaining);
    var longest := at.assistantBytes + LongestMessage(gallery, at.limits, shares, calls);
    if longest <= at.retainedRemaining && longest + at.providerState + 32 <= at.canonicalRemaining {
      forall raws, r | |raws| == |calls| && FromTools(gallery, raws, at.limits) && TurnOutcome(look, calls, raws, at, r)
        ensures !r.ReserveExceeded? && !r.SizeOverflow?
      {
        TurnPasses(look, gallery, calls, raws, at, r);
      }
    } else {
      var outs :| BatchReturns(gallery, at.limits, shares, outs) &&
        !WithinReserve(ResultsOf(calls, outs), at.assistantBytes, at.providerState, at.retainedRemaining, at.canonicalRemaining);
      var raws, r := TurnOf(look, gallery, calls, at, outs);
    }
  }

  lemma GalleryImages(look: Look, gallery: seq<Block>, limits: Limits)
    requires GoodGallery(look, gallery, limits)
    ensures AllImages(gallery)
  {
  }

  lemma TurnPasses(look: Look, gallery: seq<Block>, calls: seq<Call>, raws: seq<Raw>, at: Setting, r: Turn)
    requires Configured(at) && Starts(calls, at) && GoodShares(at.limits, TurnShares(calls, at))
    requires |raws| == |calls| && FromTools(gallery, raws, at.limits) && TurnOutcome(look, calls, raws, at, r)
    requires forall outs :: BatchReturns(gallery, at.limits, TurnShares(calls, at), outs) ==>
      WithinReserve(ResultsOf(calls, outs), at.assistantBytes, at.providerState, at.retainedRemaining, at.canonicalRemaining)
    ensures !r.ReserveExceeded? && !r.SizeOverflow?
  {
    hide Starts, TurnShares, FromTools, BatchReturns, Settled, JsonMessage, ResultsOf, MessageEncodes, Accepted;
    if !r.BatchFailed? {
      var outs :| SettledAll(look, calls, raws, at, outs) && CheckedAs(r, ResultsOf(calls, outs), at);
      SettledReturns(look, gallery, calls, raws, at, outs);
    }
  }

  /** Enough in any case: six times the quota beside the fixed part in both remainders, and
      beside the provider's state in the second. */
  lemma ReserveHolds(calls: seq<Call>, outs: seq<Option<Finished>>, shares: seq<nat>, quota: nat,
                     assistantBytes: nat, providerState: nat, retainedRemaining: int, canonicalRemaining: int)
    requires |calls| == |outs| == |shares|
    requires forall i :: 0 <= i < |outs| && outs[i].Some? ==> FrameSize(outs[i].value.blocks) <= shares[i]
    requires Sum(shares) <= quota && assistantBytes + Fixed(calls) + 6 * quota <= retainedRemaining
    requires assistantBytes + Fixed(calls) + 6 * quota + providerState + 32 <= canonicalRemaining
    ensures WithinReserve(ResultsOf(calls, outs), assistantBytes, providerState, retainedRemaining, canonicalRemaining)
  {
    hide FrameSize, Sum, Fixed, JsonMessage, ResultsOf;
    SessionCeilingHolds(calls, outs, shares, quota, Fixed(calls) + 6 * quota);
  }

  // ---- two turns that fail ----

  ghost predicate Loose(clamp: int64, quota: nat)
  {
    clamp <= 0 || clamp >= quota
  }

  /** One call admitted with a quota, and so much left beside the fixed part. */
  ghost predicate JustAdmitted(call: Call, at: Setting, quota: nat, left: nat)
  {
    && Configured(at) && MessageEncodes(Minimum([call])) && at.limits.maxFramedBytes <= INSPECTION_CEILING
    && Loose(at.batchLimit, quota) && Loose(at.providerQuota, quota) && at.ceiling >= Fixed([call])
    && PER_CALL_RAW_RESERVE <= quota == Truncate.Min((at.ceiling - Fixed([call])) / RAW_QUOTA_DIVISOR, left)
    && at.retainedRemaining == at.canonicalRemaining == at.assistantBytes + Fixed([call]) + left
  }

  lemma OneCallStarts(call: Call, at: Setting, quota: nat, left: nat)
    requires JustAdmitted(call, at, quota, left)
    ensures Starts([call], at) && TurnQuota([call], at) == quota
    ensures TurnShares([call], at)[0] == Truncate.Min(quota, at.limits.maxFramedBytes)
  {
    hide MessageEncodes, JsonMessage, Minimum;
  }

  lemma OneResult(call: Call, out: Finished)
    ensures ResultsOf([call], [Some(out)]) == [ToolResult(call.id, call.name, out.isError, out.blocks)]
  {
    assert [call][1..] == [] && [Some(out)][1..] == [];
    assert ResultsOf([], []) == [];
  }

  /** The message of one call, against the fixed part. */
  lemma OneMessage(call: Call, out: Finished)
    requires out.blocks != []
    ensures |JsonMessage(ResultsOf([call], [Some(out)]))| + 16 + (if out.isError then 0 else 16) + 1024 == Fixed([call]) + Weight(out.blocks)
  {
    hide JsonResult, Ascii, Weight, Join, JsonResults;
    OneResult(call, out);
    var least := ToolResult(call.id, call.name, true, [Text([])]);
    var made := ToolResult(call.id, call.name, out.isError, out.blocks);
    assert [call][1..] == [] && Minimum([]) == [];
    assert Minimum([call]) == [least] + [] && [least] + [] == [least] && [made] + [] == [made];
    ResultsCons(least, []);
    ResultsCons(made, []);
    ResultWeight(call, out.isError, out.blocks);
  }

  /** A turn whose one output goes through as it is ends as the check of that output does. */
  lemma OneTurn(look: Look, call: Call, raw: Raw, at: Setting, quota: nat, left: nat, r: Turn)
    requires JustAdmitted(call, at, quota, left)
    requires KeptWhole(look, raw, at.limits.(maxFramedBytes := Truncate.Min(quota, at.limits.maxFramedBytes)))
    requires TurnOutcome(look, [call], [raw], at, r)
    ensures CheckedAs(r, ResultsOf([call], [Some(Finished(raw.blocks, raw.isError))]), at)
  {
    OneCallStarts(call, at, quota, left);
    hide JustAdmitted, Starts, TurnShares, TurnQuota, Derived, CheckedAs, Accepted, Fits, ResultsOf;
    assert CallLimits([call], at, 0) == at.limits.(maxFramedBytes := Truncate.Min(quota, at.limits.maxFramedBytes));
    assert [raw][0] == raw && KeptWhole(look, [raw][0], CallLimits([call], at, 0));
    assert !r.BatchFailed?;
    var outs :| SettledAll(look, [call], [raw], at, outs) && CheckedAs(r, ResultsOf([call], outs), at);
    assert outs == [Some(Finished(raw.blocks, raw.isError))];
  }

  lemma PlainText(look: Look, text: Bytes, isError: bool, limits: Limits)
    requires Valid(text) && |text| <= 900 && |text| <= limits.maxTextBytes && limits.maxBlocks >= 1 && 1024 <= limits.maxFramedBytes
    ensures KeptWhole(look, Raw([Text(text)], isError, None), limits)
  {
    hide Valid, FrameSize, TextTotal, Accepted;
    TextFrameSizeIs(text);
    OneTextTotal(text);
    OneTextAccepted(look, text, limits);
  }

  /** Escaping alone: admitted with a quota of 1024 bytes and no provider state, the turn fails
      when its call returns between 400 and 900 control characters, which its share allows. */
  method ControlCharactersExceed(sha: Bytes -> Digest, look: Look, call: Call, n: nat, at: Setting) returns (r: Turn)
    requires JustAdmitted(call, at, 1024, 1024) && at.providerState == 0 && 400 <= n <= 900 && n <= at.limits.maxTextBytes
    requires at.retainedRemaining <= 0x1_0000_0000
    ensures r.ReserveExceeded?
  {
    var raw := Raw([Text(Controls(n))], false, None);
    r := ToolTurn(sha, look, [call], [raw], at);
    hide KeptWhole, Fixed, JsonMessage, ResultsOf, MessageEncodes, Weight, JsonBlock, TurnOutcome;
    ControlsBody(n);
    PlainText(look, Controls(n), false, at.limits.(maxFramedBytes := Truncate.Min(1024, at.limits.maxFramedBytes)));
    OneTurn(look, call, raw, at, 1024, 1024, r);
    OneMessage(call, Finished(raw.blocks, false));
    WeightOfOne(Text(Controls(n)));
    TextIs(n);
    OneEncodes(call, Finished(raw.blocks, false));
  }

  lemma OneEncodes(call: Call, out: Finished)
    requires MessageEncodes(Minimum([call])) && out.blocks != [] && forall i :: 0 <= i < |out.blocks| ==> BlockEncodes(out.blocks[i])
    ensures MessageEncodes(ResultsOf([call], [Some(out)]))
  {
    hide BlockEncodes;
    assert [Some(out)][0] == Some(out);
    ResultsEncode([call], [Some(out)]);
  }

  /** Provider state alone: the same happens for an empty text, however much is left for the
      outputs, six times the quota or more, once the provider's state is as large as what is left. */
  method ProviderStateExceeds(sha: Bytes -> Digest, look: Look, call: Call, quota: nat, left: nat, at: Setting) returns (r: Turn)
    requires JustAdmitted(call, at, quota, left) && at.providerState == Fixed([call]) + left
    requires at.retainedRemaining <= 0x1_0000_0000
    ensures r.ReserveExceeded?
  {
    var raw := Raw([Text([])], true, None);
    r := ToolTurn(sha, look, [call], [raw], at);
    hide KeptWhole, Fixed, JsonMessage, ResultsOf, MessageEncodes, Weight, JsonBlock, TurnOutcome;
    PlainText(look, [], true, at.limits.(maxFramedBytes := Truncate.Min(quota, at.limits.maxFramedBytes)));
    OneTurn(look, call, raw, at, quota, left, r);
    OneMessage(call, Finished(raw.blocks, true));
    WeightOfOne(Text([]));
    TextFieldSize([]);
    OneEncodes(call, Finished(raw.blocks, true));
  }
}
