/** Truncating a finished output: where the cuts fall, what is left of each block, the size
    predicted before rewriting, and the search for the amount to keep
    (core/tools/output.go:404-597). */
module Truncate {
  import opened Utf8
  import opened Int64
  import opened Frame
  import opened Marker
  import opened Wrappers

  // ---- the text of an output ----

  function AllText(blocks: seq<Block>): Bytes
  {
    if blocks == [] then [] else (if blocks[0].Text? then blocks[0].text else []) + AllText(blocks[1..])
  }

  function TextTotal(blocks: seq<Block>): (n: nat)
    ensures n == |AllText(blocks)|
  {
    if blocks == [] then 0 else (if blocks[0].Text? then |blocks[0].text| else 0) + TextTotal(blocks[1..])
  }

  function ImageBytes(b: Block): nat
  {
    if b.Text? then 0 else |b.data|
  }

  /** The bytes of the images of an output. */
  function ImageTotal(blocks: seq<Block>): nat
  {
    if blocks == [] then 0 else ImageTotal(blocks[..|blocks| - 1]) + ImageBytes(blocks[|blocks| - 1])
  }

  lemma OneTextTotal(text: Bytes)
    ensures TextTotal([Text(text)]) == |text|
  {
    assert [Text(text)][1..] == [];
  }

  predicate HasText(blocks: seq<Block>)
  {
    exists i :: 0 <= i < |blocks| && blocks[i].Text?
  }

  ghost predicate AllValid(blocks: seq<Block>)
  {
    forall i :: 0 <= i < |blocks| && blocks[i].Text? ==> Valid(blocks[i].text)
  }

  function Sizes(blocks: seq<Block>): nat
  {
    if blocks == [] then 0 else SizeOf(blocks[0]) + Sizes(blocks[1..])
  }

  lemma {:induction false} SizesFromIs(blocks: seq<Block>, i: nat)
    requires i <= |blocks|
    ensures SizesFrom(blocks, i) == Sizes(blocks[i..])
    decreases |blocks| - i
  {
    hide SizeOf;
    if i < |blocks| {
      SizesFromIs(blocks, i + 1);
      assert blocks[i..][1..] == blocks[i + 1..];
    }
  }

  lemma FrameSizeIs(blocks: seq<Block>)
    ensures FrameSize(blocks) == HEAD_SIZE + Sizes(blocks)
  {
    SizesFromIs(blocks, 0);
    assert blocks[0..] == blocks;
  }

  // ---- where the cuts fall ----

  /** The last aligned cut at or before `target`, counted over the text of all blocks. */
  function Before(blocks: seq<Block>, target: nat): (r: nat)
    ensures r <= target && r <= TextTotal(blocks)
  {
    if blocks == [] then 0
    else if !blocks[0].Text? then Before(blocks[1..], target)
    else if target <= |blocks[0].text| then AlignDown(blocks[0].text, target)
    else |blocks[0].text| + Before(blocks[1..], target - |blocks[0].text|)
  }

  /** The first aligned cut at or after `target`. */
  function After(blocks: seq<Block>, target: nat): (r: nat)
    ensures r <= TextTotal(blocks) && (target <= TextTotal(blocks) ==> target <= r)
  {
    if blocks == [] then 0
    else if !blocks[0].Text? then After(blocks[1..], target)
    else if target <= |blocks[0].text| then AlignUp(blocks[0].text, target)
    else |blocks[0].text| + After(blocks[1..], target - |blocks[0].text|)
  }

  /** The first text block that reaches `target`. */
  function First(blocks: seq<Block>, target: nat): (r: nat)
    requires HasText(blocks) && target <= TextTotal(blocks)
    ensures r < |blocks| && blocks[r].Text?
  {
    if blocks[0].Text? && target <= |blocks[0].text| then 0
    else
      StillText(blocks, target);
      1 + First(blocks[1..], if blocks[0].Text? then target - |blocks[0].text| else target)
  }

  lemma StillText(blocks: seq<Block>, target: nat)
    requires HasText(blocks) && target <= TextTotal(blocks)
    requires !(blocks[0].Text? && target <= |blocks[0].text|)
    ensures HasText(blocks[1..])
  {
    if blocks[0].Text? {
      SomeText(blocks[1..]);
    } else {
      var i :| 0 <= i < |blocks| && blocks[i].Text?;
      assert blocks[1..][i - 1] == blocks[i];
    }
  }

  lemma {:induction false} SomeText(blocks: seq<Block>)
    requires TextTotal(blocks) > 0
    ensures HasText(blocks)
  {
    if !blocks[0].Text? {
      SomeText(blocks[1..]);
      var i :| 0 <= i < |blocks[1..]| && blocks[1..][i].Text?;
      assert blocks[i + 1].Text?;
    }
  }

  // ---- what is left of the blocks ----

  function Min(a: nat, b: nat): nat { if a <= b then a else b }

  function Minus(a: nat, b: nat): nat { if a <= b then 0 else a - b }

  function CutBlock(text: Bytes, head: nat, tail: nat, marker: Bytes): Bytes
  {
    text[..Min(head, |text|)] + marker + text[Min(tail, |text|)..]
  }

  /** The text before `head`, the marker in the first block that `head` reaches, and the text
      from `tail` on, each byte in the block it came from; other blocks as they were. */
  function Rewritten(blocks: seq<Block>, head: nat, tail: nat, marker: Bytes): (r: seq<Block>)
    requires head <= tail
    ensures |r| == |blocks|
  {
    if blocks == [] then []
    else if !blocks[0].Text? then [blocks[0]] + Rewritten(blocks[1..], head, tail, marker)
    else
      var text := blocks[0].text;
      if head <= |text| then
        [Text(CutBlock(text, head, tail, marker))] + Rewritten(blocks[1..], 0, Minus(tail, |text|), [])
      else
        [blocks[0]] + Rewritten(blocks[1..], head - |text|, tail - |text|, marker)
  }

  /** The outcome of keeping about `keep` bytes of text. */
  function Keep(blocks: seq<Block>, keep: nat, marker: Bytes): (r: seq<Block>)
    requires keep <= TextTotal(blocks)
  {
    Rewritten(blocks, Before(blocks, keep / 2), After(blocks, TextTotal(blocks) - (keep - keep / 2)), marker)
  }

  /** The two cuts never cross, so the code's correction of the second never applies. */
  lemma CutsNeverCross(blocks: seq<Block>, keep: nat)
    requires keep <= TextTotal(blocks)
    ensures Before(blocks, keep / 2) <= keep / 2
    ensures TextTotal(blocks) - (keep - keep / 2) <= After(blocks, TextTotal(blocks) - (keep - keep / 2))
    ensures Before(blocks, keep / 2) <= After(blocks, TextTotal(blocks) - (keep - keep / 2))
  {
  }

  /** Blocks that are not text are untouched, and kinds keep their places. */
  lemma {:induction false} OthersUntouched(blocks: seq<Block>, head: nat, tail: nat, marker: Bytes, i: nat)
    requires head <= tail && i < |blocks|
    ensures blocks[i].Text? <==> Rewritten(blocks, head, tail, marker)[i].Text?
    ensures !blocks[i].Text? ==> Rewritten(blocks, head, tail, marker)[i] == blocks[i]
  {
    if i > 0 {
      var rest := blocks[1..];
      if !blocks[0].Text? {
        OthersUntouched(rest, head, tail, marker, i - 1);
      } else if head <= |blocks[0].text| {
        OthersUntouched(rest, 0, Minus(tail, |blocks[0].text|), [], i - 1);
      } else {
        OthersUntouched(rest, head - |blocks[0].text|, tail - |blocks[0].text|, marker, i - 1);
      }
    }
  }

  /** A prefix of the text, the marker, and the text from `tail` on. */
  function Around(text: Bytes, head: nat, tail: nat, marker: Bytes): Bytes
    requires head <= |text|
  {
    text[..head] + marker + text[Min(tail, |text|)..]
  }

  /** The text after rewriting: a prefix of the original, the marker once, a suffix. */
  lemma {:induction false} RewrittenText(blocks: seq<Block>, head: nat, tail: nat, marker: Bytes)
    requires head <= tail && head <= TextTotal(blocks) && (marker == [] || HasText(blocks))
    ensures AllText(Rewritten(blocks, head, tail, marker)) == Around(AllText(blocks), head, tail, marker)
  {
    hide *;
    if blocks == [] {
      NothingRewritten(head, tail, marker);
    } else {
      var b, rest := blocks[0], blocks[1..];
      assert blocks == [b] + rest;
      AllTextCons(b, rest);
      RewrittenStep(blocks, head, tail, marker);
      if !b.Text? {
        if marker != [] { NotFirst(blocks); }
        RewrittenText(rest, head, tail, marker);
        AllTextCons(b, Rewritten(rest, head, tail, marker));
      } else if head <= |b.text| {
        RewrittenText(rest, 0, Minus(tail, |b.text|), []);
        AllTextCons(Text(CutBlock(b.text, head, tail, marker)), Rewritten(rest, 0, Minus(tail, |b.text|), []));
        JoinCut(b.text, AllText(rest), head, tail, marker);
      } else {
        SomeText(rest);
        RewrittenText(rest, head - |b.text|, tail - |b.text|, marker);
        AllTextCons(b, Rewritten(rest, head - |b.text|, tail - |b.text|, marker));
        JoinWhole(b.text, AllText(rest), head, tail, marker);
      }
    }
  }

  lemma NothingRewritten(head: nat, tail: nat, marker: Bytes)
    requires head <= tail && head <= TextTotal([]) && (marker == [] || HasText([]))
    ensures AllText(Rewritten([], head, tail, marker)) == Around(AllText([]), head, tail, marker)
  {
  }

  lemma RewrittenStep(blocks: seq<Block>, head: nat, tail: nat, marker: Bytes)
    requires blocks != [] && head <= tail
    ensures var b, rest := blocks[0], blocks[1..]; var r := Rewritten(blocks, head, tail, marker);
      && (!b.Text? ==> r == [b] + Rewritten(rest, head, tail, marker))
      && (b.Text? && head <= |b.text| ==>
            r == [Text(CutBlock(b.text, head, tail, marker))] + Rewritten(rest, 0, Minus(tail, |b.text|), []))
      && (b.Text? && head > |b.text| ==> r == [b] + Rewritten(rest, head - |b.text|, tail - |b.text|, marker))
  {
    hide CutBlock;
  }

  lemma AllTextCons(b: Block, rest: seq<Block>)
    ensures AllText([b] + rest) == if b.Text? then b.text + AllText(rest) else AllText(rest)
  {
    assert ([b] + rest)[1..] == rest;
    assert [] + AllText(rest) == AllText(rest);
  }

  lemma NotFirst(blocks: seq<Block>)
    requires HasText(blocks) && !blocks[0].Text?
    ensures HasText(blocks[1..])
  {
    var i :| 0 <= i < |blocks| && blocks[i].Text?;
    assert blocks[1..][i - 1] == blocks[i];
  }

  lemma JoinCut(text: Bytes, more: Bytes, head: nat, tail: nat, marker: Bytes)
    requires head <= |text| && head <= tail
    ensures CutBlock(text, head, tail, marker) + Around(more, 0, Minus(tail, |text|), []) == Around(text + more, head, tail, marker)
  {
    var t := Min(tail, |text|);
    var q := Min(Minus(tail, |text|), |more|);
    assert (text + more)[..head] == text[..head];
    assert (text + more)[Min(tail, |text| + |more|)..] == text[t..] + more[q..];
  }

  lemma JoinWhole(text: Bytes, more: Bytes, head: nat, tail: nat, marker: Bytes)
    requires |text| < head <= tail && head <= |text| + |more|
    ensures text + Around(more, head - |text|, tail - |text|, marker) == Around(text + more, head, tail, marker)
  {
    assert (text + more)[..head] == text + more[..head - |text|];
    assert (text + more)[Min(tail, |text| + |more|)..] == more[Min(tail - |text|, |more|)..];
  }

  // ---- every block stays valid text ----

  /** Both cuts fall between characters of the block they fall in. */
  ghost predicate Clean(blocks: seq<Block>, head: nat, tail: nat)
  {
    blocks == []
    || (!blocks[0].Text? && Clean(blocks[1..], head, tail))
    || (blocks[0].Text? && var text := blocks[0].text;
        Valid(text[..Min(head, |text|)]) && Valid(text[Min(tail, |text|)..])
        && Clean(blocks[1..], Minus(head, |text|), Minus(tail, |text|)))
  }

  lemma {:induction false} CutsAreClean(blocks: seq<Block>, h: nat, t: nat)
    requires AllValid(blocks)
    ensures Clean(blocks, Before(blocks, h), After(blocks, t))
  {
    hide Valid;
    if blocks != [] {
      var rest := blocks[1..];
      assert AllValid(rest);
      if !blocks[0].Text? {
        CutsAreClean(rest, h, t);
      } else {
        var text := blocks[0].text;
        assert text[..|text|] == text && text[0..] == text;
        assert Valid(text);
        EmptyValid(text);
        var h', t' := Minus(h, |text|), Minus(t, |text|);
        CutsAreClean(rest, h', t');
        if h <= |text| { BeforeZero(rest); }
        if t <= |text| { AfterZero(rest); }
      }
    }
  }

  lemma EmptyValid(text: Bytes)
    ensures Valid(text[|text|..])
  {
  }

  lemma {:induction false} BeforeZero(blocks: seq<Block>)
    ensures Before(blocks, 0) == 0
  {
  }

  lemma {:induction false} AfterZero(blocks: seq<Block>)
    requires AllValid(blocks)
    ensures After(blocks, 0) == 0
  {
    if blocks != [] {
      assert AllValid(blocks[1..]);
      if blocks[0].Text? {
        assert blocks[0].text[0..] == blocks[0].text;
      } else {
        AfterZero(blocks[1..]);
      }
    }
  }

  lemma {:induction false} RewrittenValid(blocks: seq<Block>, head: nat, tail: nat, marker: Bytes)
    requires head <= tail && AllValid(blocks) && Clean(blocks, head, tail) && Valid(marker)
    ensures AllValid(Rewritten(blocks, head, tail, marker))
  {
    hide Valid;
    if blocks != [] {
      var b, rest := blocks[0], blocks[1..];
      assert AllValid(rest);
      if !b.Text? {
        RewrittenValid(rest, head, tail, marker);
      } else {
        var text := b.text;
        var h, t := text[..Min(head, |text|)], text[Min(tail, |text|)..];
        ValidConcat(h, marker);
        ValidConcat(h + marker, t);
        if head <= |text| {
          EmptyValid([]);
          RewrittenValid(rest, 0, Minus(tail, |text|), []);
        } else {
          RewrittenValid(rest, head - |text|, tail - |text|, marker);
        }
      }
    }
  }

  // ---- the predicted size ----

  /** The size of the rewritten blocks, from lengths alone. */
  function Shape(blocks: seq<Block>, head: nat, tail: nat, marker: nat): nat
    requires head <= tail
  {
    if blocks == [] then 0
    else if !blocks[0].Text? then SizeOf(blocks[0]) + Shape(blocks[1..], head, tail, marker)
    else
      var n := |blocks[0].text|;
      if head <= n then
        BlockSize(4, 0, 0, CutLen(n, head, tail) + marker) + Shape(blocks[1..], 0, Minus(tail, n), 0)
      else
        BlockSize(4, 0, 0, n) + Shape(blocks[1..], head - n, tail - n, marker)
  }

  function CutLen(n: nat, head: nat, tail: nat): nat
  {
    Min(head, n) + (n - Min(tail, n))
  }

  lemma {:induction false} ShapeIsSize(blocks: seq<Block>, head: nat, tail: nat, marker: Bytes)
    requires head <= tail
    ensures Shape(blocks, head, tail, |marker|) == Sizes(Rewritten(blocks, head, tail, marker))
  {
    hide BlockSize, CutBlock, Sizes;
    if blocks == [] {
      NoSizes();
    } else {
      var b, rest := blocks[0], blocks[1..];
      if !b.Text? {
        ShapeIsSize(rest, head, tail, marker);
        SizesCons(b, Rewritten(rest, head, tail, marker));
      } else if head <= |b.text| {
        ShapeIsSize(rest, 0, Minus(tail, |b.text|), []);
        SizesCons(Text(CutBlock(b.text, head, tail, marker)), Rewritten(rest, 0, Minus(tail, |b.text|), []));
        CutBlockLen(b.text, head, tail, marker);
      } else {
        ShapeIsSize(rest, head - |b.text|, tail - |b.text|, marker);
        SizesCons(b, Rewritten(rest, head - |b.text|, tail - |b.text|, marker));
      }
    }
  }

  lemma NoSizes()
    ensures Sizes([]) == 0
  {
  }

  lemma SizesCons(b: Block, rest: seq<Block>)
    ensures Sizes([b] + rest) == SizeOf(b) + Sizes(rest)
  {
    hide SizeOf;
    assert ([b] + rest)[1..] == rest;
  }

  lemma CutBlockLen(text: Bytes, head: nat, tail: nat, marker: Bytes)
    ensures |CutBlock(text, head, tail, marker)| == CutLen(|text|, head, tail) + |marker|
  {
  }

  // ---- the loops ----

  /** textBoundaryBefore. */
  method TextBoundaryBefore(blocks: seq<Block>, target: nat) returns (r: nat)
    ensures r == Before(blocks, target)
  {
    hide AlignDown, Valid;
    var offset := 0;
    assert blocks[0..] == blocks;
    for i := 0 to |blocks|
      invariant offset <= target
      invariant Before(blocks, target) == offset + Before(blocks[i..], target - offset)
    {
      assert blocks[i..][1..] == blocks[i + 1..];
      if !blocks[i].Text? {
        continue;
      }
      var end := offset + |blocks[i].text|;
      if target <= end {
        var local := AlignLocalDown(blocks[i].text, target - offset);
        return offset + local;
      }
      offset := end;
    }
    r := offset;
  }

  method AlignLocalDown(text: Bytes, n: nat) returns (local: nat)
    requires n <= |text|
    ensures local == AlignDown(text, n)
  {
    local := n;
    while local > 0 && !Valid(text[..local])
      invariant local <= n && AlignDown(text, n) == AlignDown(text, local)
    {
      local := local - 1;
    }
  }

  /** textBoundaryAfter. */
  method TextBoundaryAfter(blocks: seq<Block>, target: nat) returns (r: nat)
    ensures r == After(blocks, target)
  {
    hide AlignUp, Valid;
    var offset := 0;
    assert blocks[0..] == blocks;
    for i := 0 to |blocks|
      invariant offset <= target
      invariant After(blocks, target) == offset + After(blocks[i..], target - offset)
    {
      assert blocks[i..][1..] == blocks[i + 1..];
      if !blocks[i].Text? {
        continue;
      }
      var end := offset + |blocks[i].text|;
      if target <= end {
        var local := AlignLocalUp(blocks[i].text, target - offset);
        return offset + local;
      }
      offset := end;
    }
    r := offset;
  }

  method AlignLocalUp(text: Bytes, n: nat) returns (local: nat)
    requires n <= |text|
    ensures local == AlignUp(text, n)
  {
    local := n;
    while local < |text| && !Valid(text[local..])
      invariant n <= local <= |text| && AlignUp(text, n) == AlignUp(text, local)
    {
      local := local + 1;
    }
  }

  function BlockTextTotal(b: Block): nat
  {
    if b.Text? then |b.text| else 0
  }

  /** The rest of the plan at block `i`, where `offset` bytes of text lie before it. */
  ghost predicate Ahead(blocks: seq<Block>, i: nat, offset: nat, head: nat, at: nat)
  {
    && i <= |blocks|
    && (i <= at ==> offset <= head && HasText(blocks[i..]) && head - offset <= TextTotal(blocks[i..])
                    && at == i + First(blocks[i..], head - offset))
    && (i > at ==> head <= offset)
  }

  lemma AheadStep(blocks: seq<Block>, i: nat, offset: nat, head: nat, at: nat)
    requires i < |blocks| && Ahead(blocks, i, offset, head, at)
    ensures Ahead(blocks, i + 1, offset + BlockTextTotal(blocks[i]), head, at)
    ensures blocks[i].Text? ==> (i == at <==> i <= at && head - offset <= |blocks[i].text|)
    ensures !blocks[i].Text? ==> i != at
  {
    assert blocks[i..][1..] == blocks[i + 1..] && blocks[i..][0] == blocks[i];
    if i < at {
      StillText(blocks[i..], head - offset);
    }
  }

  lemma AheadStart(blocks: seq<Block>, head: nat)
    requires HasText(blocks) && head <= TextTotal(blocks)
    ensures Ahead(blocks, 0, 0, head, First(blocks, head))
  {
    assert blocks[0..] == blocks;
  }

  /** firstTextAtOrAfter: the last text block when none reaches the target, -1 without text. */
  method FirstTextAtOrAfter(blocks: seq<Block>, target: nat) returns (r: int)
    ensures HasText(blocks) && target <= TextTotal(blocks) ==> r == First(blocks, target)
    ensures -1 <= r < |blocks| && (r >= 0 ==> blocks[r].Text?)
  {
    hide Ahead, HasText, TextTotal, First;
    var offset := 0;
    var last := -1;
    ghost var reached := HasText(blocks) && target <= TextTotal(blocks);
    ghost var at := if reached then First(blocks, target) else 0;
    if reached { AheadStart(blocks, target); }
    for i := 0 to |blocks|
      invariant 0 <= offset <= target
      invariant -1 <= last < i && (last >= 0 ==> blocks[last].Text?)
      invariant reached ==> Ahead(blocks, i, offset, target, at) && i <= at
    {
      if reached { AheadStep(blocks, i, offset, target, at); }
      if !blocks[i].Text? {
        continue;
      }
      last := i;
      var end := offset + |blocks[i].text|;
      if target <= end {
        return i;
      }
      offset := end;
    }
    r := last;
  }

  datatype Plan = Plan(head: nat, tail: nat, at: int)

  /** The cuts and the marker's block, computed alike by the size scan and the rewriting. */
  method PlanCuts(blocks: seq<Block>, keep: nat) returns (p: Plan)
    requires HasText(blocks) && keep <= TextTotal(blocks)
    ensures p.head == Before(blocks, keep / 2) && p.tail == After(blocks, TextTotal(blocks) - (keep - keep / 2))
    ensures p.head <= p.tail && p.at == First(blocks, p.head)
  {
    var total := TextTotal(blocks);
    var headCut := TextBoundaryBefore(blocks, keep / 2);
    var tailStart := TextBoundaryAfter(blocks, total - (keep - keep / 2));
    CutsNeverCross(blocks, keep);
    if tailStart < headCut {
      tailStart := headCut;
    }
    var markerBlock := FirstTextAtOrAfter(blocks, headCut);
    p := Plan(headCut, tailStart, markerBlock);
  }

  /** What the code adds up for one text block. */
  function KeptBytes(start: nat, n: nat, head: nat, tail: nat): nat
  {
    (if start < head then Min(start + n, head) - start else 0)
    + (if start + n > tail then start + n - (if start < tail then tail else start) else 0)
  }

  lemma KeptBytesIs(start: nat, n: nat, head: nat, tail: nat)
    requires head <= tail
    ensures KeptBytes(start, n, head, tail) == CutLen(n, Minus(head, start), Minus(tail, start))
  {
  }

  datatype Sized = Sized(framed: nat, text: nat) | TooBig

  // ---- the scan and the rewriting agree with the specification ----

  const INSPECTION_CEILING: nat := 0x1000_0000

  /** What inspection lets through: no block is larger than the ceiling. */
  ghost predicate Inspected(blocks: seq<Block>)
  {
    FrameSize(blocks) <= INSPECTION_CEILING
  }

  lemma {:induction false} BlockInspected(blocks: seq<Block>, i: nat)
    requires i < |blocks|
    ensures SizeOf(blocks[i]) <= Sizes(blocks)
  {
    hide SizeOf;
    if i > 0 {
      BlockInspected(blocks[1..], i - 1);
    }
  }

  lemma BlockBounds(blocks: seq<Block>, i: nat)
    requires i < |blocks| && Inspected(blocks)
    ensures |blocks[i].Kind()| <= 16 && |blocks[i].Mime()| + 8 <= INSPECTION_CEILING && |blocks[i].Detail()| + 8 <= INSPECTION_CEILING
    ensures |blocks[i].Payload()| <= INSPECTION_CEILING
  {
    FrameSizeIs(blocks);
    BlockInspected(blocks, i);
  }

  /** The predicted size of what is still ahead of block `i`. */
  ghost function ShapeAhead(blocks: seq<Block>, i: nat, offset: nat, head: nat, tail: nat, marker: nat): nat
    requires head <= tail && i <= |blocks|
  {
    Shape(blocks[i..], Minus(head, offset), Minus(tail, offset), marker)
  }

  lemma ShapeStep(blocks: seq<Block>, i: nat, offset: nat, head: nat, tail: nat, at: nat, marker: nat)
    requires i < |blocks| && Ahead(blocks, i, offset, head, at) && head <= tail
    ensures !blocks[i].Text? ==>
      ShapeAhead(blocks, i, offset, head, tail, if i <= at then marker else 0)
      == SizeOf(blocks[i]) + ShapeAhead(blocks, i + 1, offset, head, tail, if i + 1 <= at then marker else 0)
    ensures blocks[i].Text? ==> var n := |blocks[i].text|;
      ShapeAhead(blocks, i, offset, head, tail, if i <= at then marker else 0)
      == BlockSize(4, 0, 0, KeptBytes(offset, n, head, tail) + if i == at then marker else 0)
         + ShapeAhead(blocks, i + 1, offset + n, head, tail, if i + 1 <= at then marker else 0)
  {
    hide BlockSize, HasText, First, TextTotal;
    AheadStep(blocks, i, offset, head, at);
    hide Ahead;
    assert blocks[i..][1..] == blocks[i + 1..] && blocks[i..][0] == blocks[i];
    if blocks[i].Text? {
      KeptBytesIs(offset, |blocks[i].text|, head, tail);
      AheadFacts(blocks, i, offset, head, at);
    }
  }

  lemma AheadFacts(blocks: seq<Block>, i: nat, offset: nat, head: nat, at: nat)
    requires Ahead(blocks, i, offset, head, at)
    ensures i > at ==> head <= offset
    ensures i <= at ==> offset <= head
  {
  }

  /** The text bytes kept among the first `offset`. */
  function KeptSoFar(offset: nat, head: nat, tail: nat): nat
  {
    Min(head, offset) + Minus(offset, tail)
  }

  /** truncatedShapeSize: the frame size and text size the rewritten blocks will have; no more
      than all of the text is kept. */
  method TruncatedShapeSize(blocks: seq<Block>, keep: nat, markerBytes: nat) returns (r: Sized)
    requires HasText(blocks) && Inspected(blocks) && markerBytes <= 0x1_0000
    ensures var all := Min(keep, TextTotal(blocks));
      var head, tail := Before(blocks, all / 2), After(blocks, TextTotal(blocks) - (all - all / 2));
      && head <= tail
      && r == if HEAD_SIZE + Shape(blocks, head, tail, markerBytes) <= MAX_INT64
              then Sized(HEAD_SIZE + Shape(blocks, head, tail, markerBytes), head + TextTotal(blocks) - tail + markerBytes)
              else TooBig
  {
    hide Shape, Ahead, Before, After, First, HasText, BlockSize, Inspected;
    var p := PlanCuts(blocks, if keep > TextTotal(blocks) then TextTotal(blocks) else keep);
    r := ScanShape(blocks, p, markerBytes);
  }

  method ScanShape(blocks: seq<Block>, p: Plan, markerBytes: nat) returns (r: Sized)
    requires HasText(blocks) && Inspected(blocks) && markerBytes <= 0x1_0000
    requires p.head <= p.tail && p.head <= TextTotal(blocks) && p.tail <= TextTotal(blocks) && p.at == First(blocks, p.head)
    ensures r == if HEAD_SIZE + Shape(blocks, p.head, p.tail, markerBytes) <= MAX_INT64
                 then Sized(HEAD_SIZE + Shape(blocks, p.head, p.tail, markerBytes), p.head + TextTotal(blocks) - p.tail + markerBytes)
                 else TooBig
  {
    hide Shape, Scanned, First, HasText, BlockSize, Inspected, AllText, TextTotal, KeptBytes;
    r := Sized(HEAD_SIZE, 0);
    var offset := 0;
    ScanStart(blocks, p, markerBytes);
    for i := 0 to |blocks|
      invariant 0 <= offset && Scanned(blocks, i, offset, p, markerBytes, r)
      invariant r.Sized? && 0 <= r.text <= r.framed <= MAX_INT64
    {
      BlockBounds(blocks, i);
      ScanStep(blocks, i, offset, p, markerBytes, r);
      var payload := NewPayload(blocks[i], offset, p, if i == p.at then markerBytes else 0);
      offset := offset + BlockTextTotal(blocks[i]);
      r := AddBlock(r, blocks[i], payload);
      if r.TooBig? {
        return;
      }
    }
    ScanEnd(blocks, offset, p, markerBytes, r);
  }

  /** The payload length a block will have. */
  function NewPayload(b: Block, offset: nat, p: Plan, marker: nat): nat
  {
    if b.Text? then KeptBytes(offset, |b.text|, p.head, p.tail) + marker else |b.Payload()|
  }

  /** The scan has added up the blocks before `i`. */
  ghost predicate Scanned(blocks: seq<Block>, i: nat, offset: nat, p: Plan, markerBytes: nat, r: Sized)
    requires i <= |blocks| && p.head <= p.tail
  {
    && r.Sized? && p.at >= 0
    && offset + TextTotal(blocks[i..]) == TextTotal(blocks)
    && Ahead(blocks, i, offset, p.head, p.at)
    && r.text == KeptSoFar(offset, p.head, p.tail) + (if i <= p.at then 0 else markerBytes)
    && HEAD_SIZE + Shape(blocks, p.head, p.tail, markerBytes)
       == r.framed + ShapeAhead(blocks, i, offset, p.head, p.tail, if i <= p.at then markerBytes else 0)
  }

  lemma ScanStart(blocks: seq<Block>, p: Plan, markerBytes: nat)
    requires HasText(blocks) && p.head <= p.tail && p.head <= TextTotal(blocks) && p.at == First(blocks, p.head)
    ensures Scanned(blocks, 0, 0, p, markerBytes, Sized(HEAD_SIZE, 0))
  {
    hide Ahead, First, Shape;
    AheadStart(blocks, p.head);
    assert blocks[0..] == blocks;
  }

  lemma ScanStep(blocks: seq<Block>, i: nat, offset: nat, p: Plan, markerBytes: nat, r: Sized)
    requires i < |blocks| && p.head <= p.tail && Scanned(blocks, i, offset, p, markerBytes, r)
    ensures var b := blocks[i]; var payload := NewPayload(b, offset, p, if i == p.at then markerBytes else 0);
      var size := BlockSize(|b.Kind()|, |b.Mime()|, |b.Detail()|, payload);
      && payload <= |b.Payload()| + markerBytes
      && Scanned(blocks, i + 1, offset + BlockTextTotal(b), p, markerBytes, Sized(r.framed + size, r.text + if b.Text? then payload else 0))
      && r.framed + size <= HEAD_SIZE + Shape(blocks, p.head, p.tail, markerBytes)
  {
    hide Ahead, Shape, BlockSize, KeptBytes, KeptSoFar, ShapeAhead, TextTotal;
    ShapeStep(blocks, i, offset, p.head, p.tail, p.at, markerBytes);
    AheadStep(blocks, i, offset, p.head, p.at);
    TextStep(blocks, i);
    if blocks[i].Text? {
      KeptGrows(offset, |blocks[i].text|, p.head, p.tail);
    }
  }

  lemma ScanEnd(blocks: seq<Block>, offset: nat, p: Plan, markerBytes: nat, r: Sized)
    requires p.head <= p.tail <= TextTotal(blocks) && p.at < |blocks| && Scanned(blocks, |blocks|, offset, p, markerBytes, r)
    ensures r == Sized(HEAD_SIZE + Shape(blocks, p.head, p.tail, markerBytes), p.head + TextTotal(blocks) - p.tail + markerBytes)
  {
    EndAhead(blocks, offset, p);
  }

  lemma TextStep(blocks: seq<Block>, i: nat)
    requires i < |blocks|
    ensures TextTotal(blocks[i..]) == BlockTextTotal(blocks[i]) + TextTotal(blocks[i + 1..])
  {
    assert blocks[i..][1..] == blocks[i + 1..] && blocks[i..][0] == blocks[i];
  }

  /** One block with its new payload length: nothing when a sum leaves 64 bits. */
  method AddBlock(so: Sized, b: Block, payload: int64) returns (r: Sized)
    requires so.Sized? && 0 <= so.text <= so.framed <= MAX_INT64
    requires |b.Kind()| <= 16 && |b.Mime()| + 8 <= INSPECTION_CEILING && |b.Detail()| + 8 <= INSPECTION_CEILING && payload >= 0
    ensures var size := BlockSize(|b.Kind()|, |b.Mime()|, |b.Detail()|, payload);
      && r == (if so.framed + size <= MAX_INT64 then Sized(so.framed + size, so.text + if b.Text? then payload else 0) else TooBig)
      && payload <= size
  {
    hide BlockSize;
    PayloadInSize(|b.Kind()|, |b.Mime()|, |b.Detail()|, payload);
    var text: int64 := so.text;
    if b.Text? {
      var next := Add64(text, payload);
      if next.Overflow? {
        return TooBig;
      }
      text := next.value;
    }
    var blockSize := FramedBlockSize(|b.Kind()|, |b.Mime()|, |b.Detail()|, payload);
    if blockSize.Overflow? {
      return TooBig;
    }
    var framed := Add64(so.framed, blockSize.value);
    if framed.Overflow? {
      return TooBig;
    }
    r := Sized(framed.value, text);
  }

  lemma PayloadInSize(kind: nat, mime: nat, detail: nat, payload: nat)
    ensures payload <= BlockSize(kind, mime, detail, payload)
  {
  }

  lemma KeptGrows(offset: nat, n: nat, head: nat, tail: nat)
    requires head <= tail
    ensures KeptSoFar(offset + n, head, tail) == KeptSoFar(offset, head, tail) + KeptBytes(offset, n, head, tail)
    ensures KeptBytes(offset, n, head, tail) <= n
  {
  }

  lemma EndAhead(blocks: seq<Block>, offset: nat, p: Plan)
    requires p.head <= p.tail <= offset && p.at < |blocks|
    requires offset + TextTotal(blocks[|blocks|..]) == TextTotal(blocks)
    ensures KeptSoFar(offset, p.head, p.tail) == p.head + TextTotal(blocks) - p.tail
    ensures ShapeAhead(blocks, |blocks|, offset, p.head, p.tail, 0) == 0
  {
  }

  /** What is still to be rewritten from block `i` on. */
  ghost function RestAhead(blocks: seq<Block>, i: nat, offset: nat, p: Plan, marker: Bytes): seq<Block>
    requires p.head <= p.tail && i <= |blocks|
  {
    Rewritten(blocks[i..], Minus(p.head, offset), Minus(p.tail, offset), if i <= p.at then marker else [])
  }

  lemma RestStep(blocks: seq<Block>, i: nat, offset: nat, p: Plan, marker: Bytes)
    requires i < |blocks| && p.head <= p.tail && p.at >= 0 && Ahead(blocks, i, offset, p.head, p.at)
    ensures RestAhead(blocks, i, offset, p, marker)
      == [if blocks[i].Text?
          then Text(CutBlock(blocks[i].text, Minus(p.head, offset), Minus(p.tail, offset), if i == p.at then marker else []))
          else blocks[i]]
         + RestAhead(blocks, i + 1, offset + BlockTextTotal(blocks[i]), p, marker)
  {
    AheadStep(blocks, i, offset, p.head, p.at);
    AheadFacts(blocks, i, offset, p.head, p.at);
    hide Ahead;
    assert blocks[i..][1..] == blocks[i + 1..] && blocks[i..][0] == blocks[i];
    if blocks[i].Text? && |blocks[i].text| < Minus(p.head, offset) {
      WholeBlock(blocks[i].text, Minus(p.head, offset), Minus(p.tail, offset));
    }
  }

  lemma WholeBlock(text: Bytes, head: nat, tail: nat)
    requires |text| < head <= tail
    ensures CutBlock(text, head, tail, []) == text
  {
  }

  /** The buffer the code builds for one text block. */
  method CutText(text: Bytes, start: nat, p: Plan, marker: Bytes) returns (buf: Bytes)
    requires p.head <= p.tail
    ensures buf == CutBlock(text, Minus(p.head, start), Minus(p.tail, start), marker)
  {
    var end := start + |text|;
    buf := [];
    if start < p.head {
      var to := Min(end, p.head);
      buf := buf + text[..to - start];
    }
    assert buf == text[..Min(Minus(p.head, start), |text|)];
    buf := buf + marker;
    if end > p.tail {
      var from := if start < p.tail then p.tail else start;
      if from < end {
        buf := buf + text[from - start..];
      }
    }
  }

  lemma Clamped(keep: nat, total: nat)
    ensures Min(keep, total) <= total && (keep <= total ==> Min(keep, total) == keep)
  {
  }

  /** applyKeep: no more than all of the text is kept. */
  method ApplyKeep(blocks: seq<Block>, keep: nat, marker: Bytes) returns (out: seq<Block>)
    requires HasText(blocks)
    ensures out == Keep(blocks, Min(keep, TextTotal(blocks)), marker)
  {
    Clamped(keep, TextTotal(blocks));
    hide *;
    var all := Min(keep, TextTotal(blocks));
    var p := PlanCuts(blocks, all);
    ghost var goal := Keep(blocks, all, marker);
    out := blocks;
    var offset := 0;
    AheadStart(blocks, p.head);
    RestStart(blocks, all, p, marker);
    for i := 0 to |blocks|
      invariant 0 <= offset && Ahead(blocks, i, offset, p.head, p.at)
      invariant |out| == |blocks| && out[i..] == blocks[i..]
      invariant goal == out[..i] + RestAhead(blocks, i, offset, p, marker)
    {
      RestStep(blocks, i, offset, p, marker);
      AheadStep(blocks, i, offset, p.head, p.at);
      ghost var was := out;
      assert out[i..][0] == blocks[i];
      if blocks[i].Text? {
        var buf := CutText(blocks[i].text, offset, p, if i == p.at then marker else []);
        out := out[i := Text(buf)];
      }
      offset := offset + BlockTextTotal(blocks[i]);
      OneMore(was, out, i, RestAhead(blocks, i + 1, offset, p, marker));
      assert out[i + 1..] == blocks[i + 1..];
    }
    NothingAhead(blocks, offset, p, marker);
    assert out[..|blocks|] == out;
  }

  lemma OneMore(was: seq<Block>, out: seq<Block>, i: nat, rest: seq<Block>)
    requires i < |was| == |out| && out[..i] == was[..i]
    ensures was[..i] + ([out[i]] + rest) == out[..i + 1] + rest
  {
  }

  lemma RestStart(blocks: seq<Block>, keep: nat, p: Plan, marker: Bytes)
    requires HasText(blocks) && keep <= TextTotal(blocks)
    requires p.head == Before(blocks, keep / 2) && p.tail == After(blocks, TextTotal(blocks) - (keep - keep / 2))
    requires p.head <= p.tail && p.at == First(blocks, p.head)
    ensures Keep(blocks, keep, marker) == RestAhead(blocks, 0, 0, p, marker)
  {
    hide Rewritten, First, Before, After, TextTotal, HasText;
    assert blocks[0..] == blocks;
  }

  lemma NothingAhead(blocks: seq<Block>, offset: nat, p: Plan, marker: Bytes)
    requires p.head <= p.tail
    ensures RestAhead(blocks, |blocks|, offset, p, marker) == []
  {
  }

  /** blocksFrameSize. */
  method BlocksFrameSize(blocks: seq<Block>) returns (r: Checked)
    requires forall b :: b in blocks ==> |b.Mime()| + 8 <= INSPECTION_CEILING && |b.Detail()| + 8 <= INSPECTION_CEILING && |b.Payload()| <= MAX_INT64
    ensures r == if FrameSize(blocks) <= MAX_INT64 then Exact(FrameSize(blocks)) else Overflow
  {
    hide BlockSize;
    var framed: int64 := HEAD_SIZE;
    for i := 0 to |blocks|
      invariant framed >= 0 && FrameSize(blocks) == framed + SizesFrom(blocks, i)
    {
      var b := blocks[i];
      var blockSize := FramedBlockSize(|b.Kind()|, |b.Mime()|, |b.Detail()|, |b.Payload()|);
      if blockSize.Overflow? {
        return Overflow;
      }
      var next := Add64(framed, blockSize.value);
      if next.Overflow? {
        return Overflow;
      }
      framed := next.value;
    }
    r := Exact(framed);
  }

  // ---- the search ----

  ghost predicate Fits(blocks: seq<Block>, limits: Limits)
  {
    FrameSize(blocks) <= limits.maxFramedBytes && TextTotal(blocks) <= limits.maxTextBytes
  }

  /** Keeping about `k` bytes beside a marker of that length stays within the limits. */
  ghost predicate FitsAt(blocks: seq<Block>, k: nat, marker: Bytes, limits: Limits)
    requires k <= TextTotal(blocks)
  {
    Fits(Keep(blocks, k, marker), limits)
  }

  /** The sizes of the outcome depend on the marker's length alone. */
  lemma KeepSizes(blocks: seq<Block>, k: nat, marker: Bytes)
    requires HasText(blocks) && k <= TextTotal(blocks)
    ensures var head, tail := Before(blocks, k / 2), After(blocks, TextTotal(blocks) - (k - k / 2));
      && head <= tail <= TextTotal(blocks)
      && FrameSize(Keep(blocks, k, marker)) == HEAD_SIZE + Shape(blocks, head, tail, |marker|)
      && TextTotal(Keep(blocks, k, marker)) == head + TextTotal(blocks) - tail + |marker|
      && AllText(Keep(blocks, k, marker)) == AllText(blocks)[..head] + marker + AllText(blocks)[tail..]
  {
    hide *;
    CutsNeverCross(blocks, k);
    var head, tail := Before(blocks, k / 2), After(blocks, TextTotal(blocks) - (k - k / 2));
    KeepIs(blocks, k, marker);
    RewrittenSizes(blocks, head, tail, marker);
  }

  lemma KeepIs(blocks: seq<Block>, k: nat, marker: Bytes)
    requires k <= TextTotal(blocks)
    ensures Keep(blocks, k, marker) == Rewritten(blocks, Before(blocks, k / 2), After(blocks, TextTotal(blocks) - (k - k / 2)), marker)
  {
    hide Rewritten;
  }

  lemma RewrittenSizes(blocks: seq<Block>, head: nat, tail: nat, marker: Bytes)
    requires HasText(blocks) && head <= tail <= TextTotal(blocks)
    ensures var r := Rewritten(blocks, head, tail, marker);
      && FrameSize(r) == HEAD_SIZE + Shape(blocks, head, tail, |marker|)
      && TextTotal(r) == head + TextTotal(blocks) - tail + |marker|
      && AllText(r) == AllText(blocks)[..head] + marker + AllText(blocks)[tail..]
  {
    hide Rewritten, Shape, HasText, FrameSize, TextTotal, AllText;
    var r := Rewritten(blocks, head, tail, marker);
    ShapeIsSize(blocks, head, tail, marker);
    FrameSizeIs(r);
    RewrittenText(blocks, head, tail, marker);
  }

  lemma KeepValid(blocks: seq<Block>, k: nat, marker: Bytes)
    requires k <= TextTotal(blocks) && AllValid(blocks) && Valid(marker)
    ensures AllValid(Keep(blocks, k, marker))
  {
    hide Rewritten, Clean, Before, After, AllValid, Valid;
    CutsAreClean(blocks, k / 2, TextTotal(blocks) - (k - k / 2));
    RewrittenValid(blocks, Before(blocks, k / 2), After(blocks, TextTotal(blocks) - (k - k / 2)), marker);
  }

  /** Everything a truncated output promises. */
  ghost predicate Truncation(blocks: seq<Block>, keep: nat, originalBytes: nat, originalSHA: Digest, limits: Limits, out: seq<Block>)
  {
    var total := TextTotal(blocks);
    && keep <= total && Fits(out, limits) && AllValid(out) && |out| == |blocks|
    && (forall i :: 0 <= i < |blocks| ==> (out[i].Text? <==> blocks[i].Text?) && (!blocks[i].Text? ==> out[i] == blocks[i]))
    && var head, tail := Before(blocks, keep / 2), After(blocks, total - (keep - keep / 2));
       && head <= keep / 2 && total - (keep - keep / 2) <= tail <= total
       && AllText(out) == AllText(blocks)[..head] + FormatMarker(FrameSize(out), originalBytes, originalSHA) + AllText(blocks)[tail..]
  }

  lemma KeepIsTruncation(blocks: seq<Block>, keep: nat, originalBytes: nat, sha: Digest, limits: Limits, out: seq<Block>)
    requires HasText(blocks) && AllValid(blocks) && keep <= TextTotal(blocks) && Fits(out, limits)
    requires out == Keep(blocks, keep, FormatMarker(FrameSize(out), originalBytes, sha))
    ensures Truncation(blocks, keep, originalBytes, sha, limits, out)
  {
    hide Rewritten, Before, After, AllValid, FrameSize, HasText, AllText, Fits, FormatMarker;
    var marker := FormatMarker(FrameSize(out), originalBytes, sha);
    KeepSizes(blocks, keep, marker);
    CutsNeverCross(blocks, keep);
    AsciiValid(marker);
    KeepValid(blocks, keep, marker);
    var head, tail := Before(blocks, keep / 2), After(blocks, TextTotal(blocks) - (keep - keep / 2));
    forall i | 0 <= i < |blocks|
      ensures (out[i].Text? <==> blocks[i].Text?) && (!blocks[i].Text? ==> out[i] == blocks[i])
    {
      OthersUntouched(blocks, head, tail, marker, i);
    }
  }

  // ---- keeping nothing is the smallest outcome ----

  lemma SizeGrows(a: nat, b: nat)
    requires a <= b
    ensures BlockSize(4, 0, 0, a) <= BlockSize(4, 0, 0, b)
  {
    assert a / FRAME_CHUNK <= b / FRAME_CHUNK;
  }

  lemma {:induction false} MoveMarker(blocks: seq<Block>, tail: nat, marker: nat)
    requires HasText(blocks) && TextTotal(blocks) <= tail
    ensures Shape(blocks, 0, tail, marker) + BlockSize(4, 0, 0, 0) == Shape(blocks, 0, tail, 0) + BlockSize(4, 0, 0, marker)
  {
    hide BlockSize;
    if !blocks[0].Text? {
      NotFirst(blocks);
      MoveMarker(blocks[1..], tail, marker);
    }
  }

  lemma {:induction false} LeastShape(blocks: seq<Block>, head: nat, tail: nat, most: nat, marker: nat)
    requires head <= tail && head <= TextTotal(blocks) <= most && (marker == 0 || HasText(blocks))
    ensures Shape(blocks, 0, most, marker) <= Shape(blocks, head, tail, marker)
  {
    hide BlockSize, HasText, AllText;
    if blocks != [] {
      var b, rest := blocks[0], blocks[1..];
      if !b.Text? {
        if marker != 0 { NotFirst(blocks); }
        LeastShape(rest, head, tail, most, marker);
      } else {
        var n := |b.text|;
        if head <= n {
          LeastShape(rest, 0, Minus(tail, n), most - n, 0);
          SizeGrows(marker, CutLen(n, head, tail) + marker);
        } else {
          SomeText(rest);
          LeastShape(rest, head - n, tail - n, most - n, marker);
          MoveMarker(rest, most - n, marker);
          SizeGrows(0, n);
        }
      }
    }
  }

  /** If any amount fits, keeping nothing but the marker fits. */
  lemma NothingFitsFirst(blocks: seq<Block>, k: nat, marker: Bytes, limits: Limits)
    requires HasText(blocks) && k <= TextTotal(blocks) && FitsAt(blocks, k, marker, limits)
    ensures FitsAt(blocks, 0, marker, limits)
  {
    hide Shape, HasText, Keep, FrameSize, AllText, TextTotal, Before, After;
    KeepSizes(blocks, k, marker);
    KeepSizes(blocks, 0, marker);
    BeforeZero(blocks);
    LeastShape(blocks, Before(blocks, k / 2), After(blocks, TextTotal(blocks) - (k - k / 2)), TextTotal(blocks), |marker|);
  }

  // ---- with one text block, more kept is more bytes ----

  ghost predicate NoText(blocks: seq<Block>)
  {
    forall i :: 0 <= i < |blocks| ==> !blocks[i].Text?
  }

  ghost predicate OneText(blocks: seq<Block>)
  {
    blocks != [] && if blocks[0].Text? then NoText(blocks[1..]) else OneText(blocks[1..])
  }

  lemma {:induction false} NoTextShape(blocks: seq<Block>, head: nat, tail: nat, marker: nat)
    requires NoText(blocks) && head <= tail
    ensures Shape(blocks, head, tail, marker) == Sizes(blocks) && TextTotal(blocks) == 0
  {
    if blocks != [] {
      NoTextShape(blocks[1..], head, tail, marker);
    }
  }

  lemma {:induction false} OneTextGrows(blocks: seq<Block>, h1: nat, t1: nat, h2: nat, t2: nat, marker: nat)
    requires OneText(blocks) && h1 <= h2 <= t2 <= t1 <= TextTotal(blocks)
    ensures Shape(blocks, h1, t1, marker) <= Shape(blocks, h2, t2, marker)
  {
    hide BlockSize, AllText;
    var b, rest := blocks[0], blocks[1..];
    if b.Text? {
      var n := |b.text|;
      NoTextShape(rest, 0, Minus(t1, n), 0);
      NoTextShape(rest, 0, Minus(t2, n), 0);
      SizeGrows(CutLen(n, h1, t1) + marker, CutLen(n, h2, t2) + marker);
    } else {
      OneTextGrows(rest, h1, t1, h2, t2, marker);
    }
  }

  lemma {:induction false} CutsGrow(blocks: seq<Block>, a: nat, b: nat)
    requires OneText(blocks) && a <= b <= TextTotal(blocks)
    ensures HasText(blocks)
    ensures Before(blocks, a) <= Before(blocks, b)
    ensures After(blocks, a) <= After(blocks, b)
  {
    hide Valid;
    if blocks[0].Text? {
      NoTextShape(blocks[1..], 0, 0, 0);
    } else {
      CutsGrow(blocks[1..], a, b);
      var i :| 0 <= i < |blocks[1..]| && blocks[1..][i].Text?;
      assert blocks[i + 1].Text?;
    }
  }

  lemma OneTextMonotone(blocks: seq<Block>, j: nat, k: nat, marker: Bytes, limits: Limits)
    requires OneText(blocks) && j <= k <= TextTotal(blocks) && FitsAt(blocks, k, marker, limits)
    ensures FitsAt(blocks, j, marker, limits)
  {
    hide Shape, Keep, FrameSize, AllText, Before, After, OneText, HasText;
    var total := TextTotal(blocks);
    CutsGrow(blocks, j / 2, k / 2);
    CutsGrow(blocks, total - (k - k / 2), total - (j - j / 2));
    KeepSizes(blocks, k, marker);
    KeepSizes(blocks, j, marker);
    OneTextGrows(blocks, Before(blocks, j / 2), After(blocks, total - (j - j / 2)),
                 Before(blocks, k / 2), After(blocks, total - (k - k / 2)), |marker|);
  }

  // ---- truncateBlocks ----

  /** Succeeds exactly when the marker alone fits in place of all text; what it returns is a
      truncation within both limits whose marker names its own frame size, so the last
      comparison in the code never fails; with one text block no larger amount fits. */
  method TruncateBlocks(blocks: seq<Block>, limits: Limits, originalBytes: nat, originalSHA: Digest)
    returns (r: Option<seq<Block>>, keep: nat)
    requires AllValid(blocks) && Inspected(blocks)
    ensures r.Some? <==> HasText(blocks) && FitsAt(blocks, 0, FormatMarker(0, originalBytes, originalSHA), limits)
    ensures r.Some? ==> Truncation(blocks, keep, originalBytes, originalSHA, limits, r.value)
    ensures r.Some? && OneText(blocks) ==>
      forall k :: keep < k <= TextTotal(blocks) ==> !FitsAt(blocks, k, FormatMarker(0, originalBytes, originalSHA), limits)
  {
    hide *;
    if !HasText(blocks) {
      return None, 0;
    }
    var found := SearchKeep(blocks, limits, FormatMarker(0, originalBytes, originalSHA));
    if found < 0 {
      return None, 0;
    }
    keep := found;
    r := Finish(blocks, limits, originalBytes, originalSHA, keep);
  }

  method SearchKeep(blocks: seq<Block>, limits: Limits, marker: Bytes) returns (best: int)
    requires HasText(blocks) && Inspected(blocks) && |marker| == MARKER_SIZE
    ensures -1 <= best <= TextTotal(blocks)
    ensures best >= 0 ==> FitsAt(blocks, best, marker, limits) && FitsAt(blocks, 0, marker, limits)
    ensures best < 0 ==> !FitsAt(blocks, 0, marker, limits)
    ensures OneText(blocks) ==> forall k :: best < k <= TextTotal(blocks) ==> !FitsAt(blocks, k, marker, limits)
  {
    hide Shape, Keep, HasText, Inspected, TextTotal, AllText, FitsAt, OneText;
    var total := TextTotal(blocks);
    var lo, hi: int := 0, total;
    best := -1;
    while lo <= hi
      invariant 0 <= lo <= hi + 1 <= total + 1
      invariant best == lo - 1 && (best >= 0 ==> FitsAt(blocks, best, marker, limits))
      invariant hi < total ==> !FitsAt(blocks, hi + 1, marker, limits)
      invariant OneText(blocks) ==> forall k :: hi < k <= total ==> !FitsAt(blocks, k, marker, limits)
      decreases hi - lo
    {
      var mid := (lo + hi) / 2;
      var fits := Probe(blocks, mid, marker, limits);
      if fits {
        best := mid;
        lo := mid + 1;
      } else {
        if OneText(blocks) {
          forall k | mid <= k <= total ensures !FitsAt(blocks, k, marker, limits) {
            if FitsAt(blocks, k, marker, limits) {
              OneTextMonotone(blocks, mid, k, marker, limits);
            }
          }
        }
        hi := mid - 1;
      }
    }
    if best >= 0 {
      NothingFitsFirst(blocks, best, marker, limits);
    }
  }

  method Probe(blocks: seq<Block>, k: nat, marker: Bytes, limits: Limits) returns (fits: bool)
    requires HasText(blocks) && Inspected(blocks) && |marker| == MARKER_SIZE && k <= TextTotal(blocks)
    ensures fits <==> FitsAt(blocks, k, marker, limits)
  {
    hide Shape, Keep, HasText, Inspected, AllText, FrameSize;
    KeepSizes(blocks, k, marker);
    var sized := TruncatedShapeSize(blocks, k, |marker|);
    fits := sized.Sized? && sized.framed <= limits.maxFramedBytes && sized.text <= limits.maxTextBytes;
  }

  method Finish(blocks: seq<Block>, limits: Limits, originalBytes: nat, originalSHA: Digest, keep: nat)
    returns (r: Option<seq<Block>>)
    requires HasText(blocks) && Inspected(blocks) && AllValid(blocks) && keep <= TextTotal(blocks)
    requires FitsAt(blocks, keep, FormatMarker(0, originalBytes, originalSHA), limits)
    ensures r.Some? && Truncation(blocks, keep, originalBytes, originalSHA, limits, r.value)
  {
    hide Shape, Keep, HasText, Inspected, AllText, FrameSize, FormatMarker, AllValid, Truncation;
    KeepSizes(blocks, keep, FormatMarker(0, originalBytes, originalSHA));
    var sized := TruncatedShapeSize(blocks, keep, MARKER_SIZE);
    if sized.TooBig? {
      return None;
    }
    var marker := FormatMarker(sized.framed, originalBytes, originalSHA);
    KeepSizes(blocks, keep, marker);
    var marked := ApplyKeep(blocks, keep, marker);
    MarkedBounds(blocks, keep, marker);
    var actual := BlocksFrameSize(marked);
    if actual.Overflow? || actual.value != sized.framed || TextTotal(marked) > limits.maxTextBytes {
      return None;
    }
    KeepIsTruncation(blocks, keep, originalBytes, originalSHA, limits, marked);
    r := Some(marked);
  }

  lemma MarkedBounds(blocks: seq<Block>, keep: nat, marker: Bytes)
    requires HasText(blocks) && Inspected(blocks) && keep <= TextTotal(blocks)
    requires FrameSize(Keep(blocks, keep, marker)) <= MAX_INT64
    ensures forall b :: b in Keep(blocks, keep, marker) ==>
      |b.Mime()| + 8 <= INSPECTION_CEILING && |b.Detail()| + 8 <= INSPECTION_CEILING && |b.Payload()| <= MAX_INT64
  {
    hide Rewritten, Before, After, AllText, Inspected, HasText;
    CutsNeverCross(blocks, keep);
    var head, tail := Before(blocks, keep / 2), After(blocks, TextTotal(blocks) - (keep - keep / 2));
    var out := Keep(blocks, keep, marker);
    FrameSizeIs(out);
    forall i | 0 <= i < |out|
      ensures |out[i].Mime()| + 8 <= INSPECTION_CEILING && |out[i].Detail()| + 8 <= INSPECTION_CEILING && |out[i].Payload()| <= MAX_INT64
    {
      OthersUntouched(blocks, head, tail, marker, i);
      BlockBounds(blocks, i);
      BlockInspected(out, i);
    }
  }
}
