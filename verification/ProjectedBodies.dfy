/** Replacing the bodies of a request's tool results: what stays as it was, and what all bodies
    together weigh (runtime/loops/context_tools.go:164-208, 231-268). */
module ProjectedBodies {
  import opened Utf8
  import opened Wrappers
  import opened Frame
  import opened Truncate
  import opened Wire
  import opened ToolHistory
  import opened Shortening
  import opened ProjectionText
  import opened Projection
  import opened ProjectContext

  // ---- what stays ----

  /** Equal, but for the children of a result. */
  ghost predicate SameContent(a: Content, b: Content)
  {
    if a.ResultContent? then
      b.ResultContent? && b.result == a.result.(children := b.result.children)
    else a == b
  }

  ghost predicate SameMessage(a: Message, b: Message)
  {
    a.role == b.role && SameContents(a.content, b.content)
  }

  ghost predicate SameShape(a: seq<Message>, b: seq<Message>)
  {
    |a| == |b| && forall m :: 0 <= m < |a| ==> SameMessage(a[m], b[m])
  }

  ghost predicate SameContents(a: seq<Content>, b: seq<Content>)
  {
    |a| == |b| && forall c :: 0 <= c < |a| ==> SameContent(a[c], b[c])
  }

  lemma {:induction false} SameCallsIn(a: seq<Content>, b: seq<Content>)
    requires SameContents(a, b)
    ensures CallsIn(a) == CallsIn(b)
    ensures ResultsIn(a) == [] ==> a == b
  {
    if a != [] {
      assert SameContents(a[1..], b[1..]);
      SameCallsIn(a[1..], b[1..]);
      assert SameContent(a[0], b[0]);
      assert a == [a[0]] + a[1..] && b == [b[0]] + b[1..];
    }
  }

  lemma {:induction false} SameKeysIn(a: seq<Content>, b: seq<Content>)
    requires SameContents(a, b)
    ensures |ResultsIn(a)| == |ResultsIn(b)| && ResultKeys(ResultsIn(a)) == ResultKeys(ResultsIn(b))
  {
    hide ResultKeys;
    if a != [] {
      assert SameContents(a[1..], b[1..]);
      SameKeysIn(a[1..], b[1..]);
      assert SameContent(a[0], b[0]);
      if a[0].ResultContent? {
        KeysCons(a[0].result, ResultsIn(a[1..]));
        KeysCons(b[0].result, ResultsIn(b[1..]));
      } else {
        assert ResultsIn(a) == ResultsIn(a[1..]) && ResultsIn(b) == ResultsIn(b[1..]);
      }
    }
  }

  lemma KeysCons(r: ToolResult, rest: seq<ToolResult>)
    ensures ResultKeys([r] + rest) == [(r.callID, r.name)] + ResultKeys(rest)
  {
  }

  lemma SameParts(a: Message, b: Message)
    requires SameMessage(a, b)
    ensures a.role == b.role && Calls(a) == Calls(b) && (Results(a) == [] <==> Results(b) == []) && (Results(a) == [] ==> a == b)
    ensures forall calls :: Matching(calls, Results(a)) <==> Matching(calls, Results(b))
  {
    hide SameContents, CallsIn, ResultsIn;
    SameCallsIn(a.content, b.content);
    SameKeysIn(a.content, b.content);
  }

  /** Replacing bodies keeps the history well paired, every calling message and every message
      outside the exchanges as it was, and each result at its call. */
  lemma {:induction false} SameShapeKeeps(a: seq<Message>, b: seq<Message>)
    requires WellPaired(a) && SameShape(a, b)
    ensures WellPaired(b) && Others(b) == Others(a) && |Exchanges(b)| == |Exchanges(a)|
    ensures forall i :: 0 <= i < |Exchanges(a)| ==>
      Exchanges(b)[i].call == Exchanges(a)[i].call && SameMessage(Exchanges(a)[i].result, Exchanges(b)[i].result)
  {
    hide CallsIn, ResultsIn, Matching, SameMessage;
    if a != [] {
      SameParts(a[0], b[0]);
      MatchingCalls(a);
      if Calls(a[0]) == [] {
        assert SameShape(a[1..], b[1..]);
        SameShapeKeeps(a[1..], b[1..]);
      } else {
        SameParts(a[1], b[1]);
        assert SameShape(a[2..], b[2..]);
        SameShapeKeeps(a[2..], b[2..]);
      }
    }
  }

  lemma MatchingCalls(a: seq<Message>)
    requires WellPaired(a) && a != []
    ensures Calls(a[0]) == [] ==> Results(a[0]) == [] && WellPaired(a[1..])
    ensures Calls(a[0]) != [] ==> |a| >= 2 && IsExchange(a[0], a[1]) && WellPaired(a[2..])
  {
    hide CallsIn, ResultsIn, DistinctIDs, CallKeys, ResultKeys;
  }

  // ---- replacing ----

  function SetBody(ms: seq<Message>, m: nat, c: nat, body: seq<Block>): (r: seq<Message>)
    requires ResultAt(ms, m, c)
    ensures SameShape(ms, r)
  {
    ms[m := ms[m].(content := ms[m].content[c := ResultContent(ms[m].content[c].result.(children := body))])]
  }

  /** All the bodies put in their places. */
  function SetAll(ms: seq<Message>, refs: seq<Ref>, bodies: seq<seq<Block>>): (r: seq<Message>)
    requires |refs| == |bodies| && forall i :: 0 <= i < |refs| ==> ResultAt(ms, refs[i].message, refs[i].content)
    ensures SameShape(ms, r)
  {
    if refs == [] then ms
    else
      var last := |refs| - 1;
      var front := SetAll(ms, refs[..last], bodies[..last]);
      ShapeKeepsResult(ms, front, refs[last].message, refs[last].content);
      ShapeTwice(ms, front, SetBody(front, refs[last].message, refs[last].content, bodies[last]));
      SetBody(front, refs[last].message, refs[last].content, bodies[last])
  }

  lemma ShapeKeepsResult(a: seq<Message>, b: seq<Message>, m: nat, c: nat)
    requires SameShape(a, b)
    ensures ResultAt(a, m, c) <==> ResultAt(b, m, c)
  {
    if m < |a| {
      assert SameMessage(a[m], b[m]);
      if c < |a[m].content| {
        assert SameContent(a[m].content[c], b[m].content[c]);
      }
    }
  }

  lemma ShapeTwice(a: seq<Message>, b: seq<Message>, d: seq<Message>)
    requires SameShape(a, b) && SameShape(b, d)
    ensures SameShape(a, d)
  {
    forall m | 0 <= m < |a| ensures SameMessage(a[m], d[m]) {
      assert SameMessage(a[m], b[m]) && SameMessage(b[m], d[m]);
      forall c | 0 <= c < |a[m].content| ensures SameContent(a[m].content[c], d[m].content[c]) {
        assert SameContent(a[m].content[c], b[m].content[c]) && SameContent(b[m].content[c], d[m].content[c]);
      }
    }
  }

  // ---- what bodies weigh ----

  function WeighContent(content: seq<Content>, f: seq<Block> -> nat): nat
  {
    if content == [] then 0
    else WeighContent(content[..|content| - 1], f) +
         var last := content[|content| - 1]; if last.ResultContent? then f(last.result.children) else 0
  }

  /** The weight of all result bodies of a history. */
  function Weigh(ms: seq<Message>, f: seq<Block> -> nat): nat
  {
    if ms == [] then 0 else Weigh(ms[..|ms| - 1], f) + WeighContent(ms[|ms| - 1].content, f)
  }

  function Total(bodies: seq<seq<Block>>, f: seq<Block> -> nat): nat
  {
    if bodies == [] then 0 else Total(bodies[..|bodies| - 1], f) + f(bodies[|bodies| - 1])
  }

  lemma {:induction false} WeighContentSet(content: seq<Content>, c: nat, x: Content, f: seq<Block> -> nat)
    requires c < |content| && content[c].ResultContent? && x.ResultContent?
    ensures WeighContent(content[c := x], f) + f(content[c].result.children) == WeighContent(content, f) + f(x.result.children)
  {
    var last := |content| - 1;
    if c == last {
      assert content[c := x][..last] == content[..last];
    } else {
      assert content[c := x][..last] == content[..last][c := x];
      WeighContentSet(content[..last], c, x, f);
    }
  }

  lemma {:induction false} WeighSet(ms: seq<Message>, m: nat, c: nat, body: seq<Block>, f: seq<Block> -> nat)
    requires ResultAt(ms, m, c)
    ensures Weigh(SetBody(ms, m, c, body), f) + f(ms[m].content[c].result.children) == Weigh(ms, f) + f(body)
  {
    var r := SetBody(ms, m, c, body);
    var last := |ms| - 1;
    if m == last {
      assert r[..last] == ms[..last];
      WeighContentSet(ms[m].content, c, r[m].content[c], f);
    } else {
      assert r[..last] == SetBody(ms[..last], m, c, body);
      WeighSet(ms[..last], m, c, body, f);
    }
  }

  // ---- the same history with nothing in its results ----

  function BlankContent(content: seq<Content>): (r: seq<Content>)
    ensures |r| == |content|
    ensures forall c :: 0 <= c < |r| ==>
      r[c] == if content[c].ResultContent? then ResultContent(content[c].result.(children := [])) else content[c]
  {
    if content == [] then []
    else
      var last := content[|content| - 1];
      BlankContent(content[..|content| - 1]) + [if last.ResultContent? then ResultContent(last.result.(children := [])) else last]
  }

  function Blanked(ms: seq<Message>): (r: seq<Message>)
    ensures |r| == |ms| && forall m :: 0 <= m < |r| ==> r[m] == Message(ms[m].role, BlankContent(ms[m].content))
  {
    if ms == [] then []
    else Blanked(ms[..|ms| - 1]) + [Message(ms[|ms| - 1].role, BlankContent(ms[|ms| - 1].content))]
  }

  lemma {:induction false} BlankContentWeighs(content: seq<Content>, f: seq<Block> -> nat)
    requires f([]) == 0
    ensures WeighContent(BlankContent(content), f) == 0
  {
    if content != [] {
      BlankContentWeighs(content[..|content| - 1], f);
      assert BlankContent(content)[..|content| - 1] == BlankContent(content[..|content| - 1]);
    }
  }

  lemma {:induction false} BlankWeighs(ms: seq<Message>, f: seq<Block> -> nat)
    requires f([]) == 0
    ensures Weigh(Blanked(ms), f) == 0
  {
    if ms != [] {
      BlankWeighs(ms[..|ms| - 1], f);
      assert Blanked(ms)[..|ms| - 1] == Blanked(ms[..|ms| - 1]);
      BlankContentWeighs(ms[|ms| - 1].content, f);
    }
  }

  lemma BlankShape(ms: seq<Message>)
    ensures SameShape(ms, Blanked(ms))
  {
  }

  /** A place not in the list keeps its content. */
  lemma {:induction false} SetElsewhere(ms: seq<Message>, refs: seq<Ref>, bodies: seq<seq<Block>>, m: nat, c: nat)
    requires |refs| == |bodies| && (forall i :: 0 <= i < |refs| ==> ResultAt(ms, refs[i].message, refs[i].content))
    requires m < |ms| && c < |ms[m].content| && !Covers(refs, m, c)
    ensures var r := SetAll(ms, refs, bodies); |r| == |ms| && c < |r[m].content| && r[m].content[c] == ms[m].content[c]
  {
    if refs != [] {
      var last := |refs| - 1;
      var front := SetAll(ms, refs[..last], bodies[..last]);
      assert !Covers(refs[..last], m, c);
      SetElsewhere(ms, refs[..last], bodies[..last], m, c);
      assert refs[last].message != m || refs[last].content != c;
      SetOther(front, refs[last].message, refs[last].content, bodies[last], m, c);
    }
  }

  lemma SetOther(ms: seq<Message>, m: nat, c: nat, body: seq<Block>, m': nat, c': nat)
    requires ResultAt(ms, m, c) && m' < |ms| && c' < |ms[m'].content| && (m != m' || c != c')
    ensures var r := SetBody(ms, m, c, body); |r| == |ms| && c' < |r[m'].content| && r[m'].content[c'] == ms[m'].content[c']
  {
  }

  /** Place `i` holds its result with the given body. */
  ghost predicate Holds(ms: seq<Message>, r: seq<Message>, ref: Ref, body: seq<Block>)
  {
    && ResultAt(ms, ref.message, ref.content) && ResultAt(r, ref.message, ref.content)
    && r[ref.message].content[ref.content].result == ms[ref.message].content[ref.content].result.(children := body)
  }

  /** The place of each entry holds its body. */
  lemma {:induction false} SetThere(ms: seq<Message>, refs: seq<Ref>, bodies: seq<seq<Block>>, i: nat)
    requires |refs| == |bodies| && DistinctRefs(refs) && SetRefs(ms, refs) && i < |refs|
    ensures Holds(ms, SetAll(ms, refs, bodies), refs[i], bodies[i])
  {
    hide SetBody, Holds, SameShape;
    var last := |refs| - 1;
    assert SetRefs(ms, refs[..last]);
    var front := SetAll(ms, refs[..last], bodies[..last]);
    ShapeKeepsResult(ms, front, refs[last].message, refs[last].content);
    if i < last {
      assert DistinctRefs(refs[..last]);
      SetThere(ms, refs[..last], bodies[..last], i);
      StillHolds(ms, front, refs[i], bodies[i], refs[last], bodies[last]);
    } else {
      NowHolds(ms, front, refs[last], bodies[last]);
    }
  }

  lemma StillHolds(ms: seq<Message>, front: seq<Message>, ref: Ref, body: seq<Block>, other: Ref, otherBody: seq<Block>)
    requires Holds(ms, front, ref, body) && ResultAt(front, other.message, other.content)
    requires ref.message != other.message || ref.content != other.content
    ensures Holds(ms, SetBody(front, other.message, other.content, otherBody), ref, body)
  {
    SetOther(front, other.message, other.content, otherBody, ref.message, ref.content);
  }

  lemma NowHolds(ms: seq<Message>, front: seq<Message>, ref: Ref, body: seq<Block>)
    requires SameShape(ms, front) && ResultAt(ms, ref.message, ref.content) && ResultAt(front, ref.message, ref.content)
    ensures Holds(ms, SetBody(front, ref.message, ref.content, body), ref, body)
  {
    assert SameMessage(ms[ref.message], front[ref.message]);
    assert SameContent(ms[ref.message].content[ref.content], front[ref.message].content[ref.content]);
  }

  /** When every result is listed, its old body does not matter. */
  lemma SetAllForgets(ms: seq<Message>, refs: seq<Ref>, bodies: seq<seq<Block>>)
    requires |refs| == |bodies| && AllResults(ms, refs)
    ensures SetRefs(Blanked(ms), refs) && SetAll(Blanked(ms), refs, bodies) == SetAll(ms, refs, bodies)
  {
    hide SetAll, Blanked, SameShape, ResultAt, Covers, DistinctRefs, AllResults;
    AllResultsParts(ms, refs);
    BlankRefs(ms, refs);
    var a, b := SetAll(ms, refs, bodies), SetAll(Blanked(ms), refs, bodies);
    SetAllLength(ms, refs, bodies);
    forall m | 0 <= m < |ms| ensures a[m] == b[m] {
      SameAt(ms, refs, bodies, m);
    }
  }

  lemma BlankRefs(ms: seq<Message>, refs: seq<Ref>)
    requires SetRefs(ms, refs)
    ensures SetRefs(Blanked(ms), refs)
  {
    hide Blanked, ResultAt;
    BlankShape(ms);
    forall i | 0 <= i < |refs| ensures ResultAt(Blanked(ms), refs[i].message, refs[i].content) {
      ShapeKeepsResult(ms, Blanked(ms), refs[i].message, refs[i].content);
    }
  }

  lemma SetAllLength(ms: seq<Message>, refs: seq<Ref>, bodies: seq<seq<Block>>)
    requires |refs| == |bodies| && SetRefs(ms, refs) && SetRefs(Blanked(ms), refs)
    ensures |SetAll(ms, refs, bodies)| == |SetAll(Blanked(ms), refs, bodies)| == |ms|
  {
    hide SetAll, Blanked, SameMessage;
  }

  ghost predicate SetRefs(ms: seq<Message>, refs: seq<Ref>)
  {
    forall i :: 0 <= i < |refs| ==> ResultAt(ms, refs[i].message, refs[i].content)
  }

  lemma SameAt(ms: seq<Message>, refs: seq<Ref>, bodies: seq<seq<Block>>, m: nat)
    requires |refs| == |bodies| && AllResults(ms, refs) && SetRefs(Blanked(ms), refs) && m < |ms|
    ensures var a, b := SetAll(ms, refs, bodies), SetAll(Blanked(ms), refs, bodies); |a| == |b| == |ms| && a[m] == b[m]
  {
    hide SetAll, Blanked, AllResults;
    AllResultsParts(ms, refs);
    var blank := Blanked(ms);
    BlankShape(ms);
    var a, b := SetAll(ms, refs, bodies), SetAll(blank, refs, bodies);
    assert SameMessage(ms[m], a[m]) && SameMessage(ms[m], blank[m]) && SameMessage(blank[m], b[m]);
    forall c | 0 <= c < |ms[m].content| ensures a[m].content[c] == b[m].content[c] {
      SameContentAt(ms, refs, bodies, m, c);
    }
  }

  lemma AllResultsParts(ms: seq<Message>, refs: seq<Ref>)
    requires AllResults(ms, refs)
    ensures SetRefs(ms, refs) && DistinctRefs(refs) && forall m: nat, c: nat :: ResultAt(ms, m, c) ==> Covers(refs, m, c)
  {
  }

  lemma SameContentAt(ms: seq<Message>, refs: seq<Ref>, bodies: seq<seq<Block>>, m: nat, c: nat)
    requires |refs| == |bodies| && SetRefs(ms, refs) && DistinctRefs(refs) && SetRefs(Blanked(ms), refs)
    requires m < |ms| && c < |ms[m].content| && (ResultAt(ms, m, c) ==> Covers(refs, m, c))
    ensures var a, b := SetAll(ms, refs, bodies), SetAll(Blanked(ms), refs, bodies);
      |a| == |b| == |ms| && c < |a[m].content| && c < |b[m].content| && a[m].content[c] == b[m].content[c]
  {
    hide SetAll;
    if Covers(refs, m, c) {
      var i :| 0 <= i < |refs| && refs[i].message == m && refs[i].content == c;
      SetThere(ms, refs, bodies, i);
      SetThere(Blanked(ms), refs, bodies, i);
    } else {
      SetElsewhere(ms, refs, bodies, m, c);
      SetElsewhere(Blanked(ms), refs, bodies, m, c);
    }
  }

  /** Into an empty history, distinct places add up. */
  lemma {:induction false} SetAllWeighs(blank: seq<Message>, refs: seq<Ref>, bodies: seq<seq<Block>>, f: seq<Block> -> nat)
    requires |refs| == |bodies| && SetRefs(blank, refs) && DistinctRefs(refs)
    requires f([]) == 0 && Weigh(blank, f) == 0
    requires forall i :: 0 <= i < |refs| ==> blank[refs[i].message].content[refs[i].content].result.children == []
    ensures Weigh(SetAll(blank, refs, bodies), f) == Total(bodies, f)
  {
    if refs != [] {
      var last := |refs| - 1;
      var front := SetAll(blank, refs[..last], bodies[..last]);
      assert DistinctRefs(refs[..last]) && SetRefs(blank, refs[..last]);
      SetAllWeighs(blank, refs[..last], bodies[..last], f);
      ShapeKeepsResult(blank, front, refs[last].message, refs[last].content);
      NotListed(refs);
      SetElsewhere(blank, refs[..last], bodies[..last], refs[last].message, refs[last].content);
      WeighSet(front, refs[last].message, refs[last].content, bodies[last], f);
    }
  }

  lemma NotListed(refs: seq<Ref>)
    requires refs != [] && DistinctRefs(refs)
    ensures !Covers(refs[..|refs| - 1], refs[|refs| - 1].message, refs[|refs| - 1].content)
  {
  }

  /** The bodies weigh what was put in. */
  lemma BodiesWeigh(ms: seq<Message>, refs: seq<Ref>, bodies: seq<seq<Block>>, f: seq<Block> -> nat)
    requires |refs| == |bodies| && AllResults(ms, refs) && f([]) == 0
    ensures Weigh(SetAll(ms, refs, bodies), f) == Total(bodies, f)
  {
    hide SetAll, AllResults, Weigh;
    SetAllForgets(ms, refs, bodies);
    AllResultsParts(ms, refs);
    BlankWeighs(ms, f);
    SetAllWeighs(Blanked(ms), refs, bodies, f);
  }

  // ---- images ----

  function ImageCount(blocks: seq<Block>): nat
  {
    if blocks == [] then 0 else ImageCount(blocks[..|blocks| - 1]) + if blocks[|blocks| - 1].Image? then 1 else 0
  }

  lemma {:induction false} OnlyTextsKeepsImages(a: seq<Block>, b: seq<Block>)
    requires OnlyTexts(a, b)
    ensures ImageTotal(a) == ImageTotal(b) && ImageCount(a) == ImageCount(b)
  {
    if a != [] {
      OnlyTextsKeepsImages(a[..|a| - 1], b[..|b| - 1]);
    }
  }

  type Placeholder = b: Bytes | Valid(b) witness []

  datatype Refusal = ByPolicy | OverImageBudget | NoSlotLeft

  /** Each image is kept or gives way to a text; the rest is as it was. */
  ghost predicate ImagesReplaced(a: seq<Block>, b: seq<Block>)
  {
    |a| == |b| && forall i :: 0 <= i < |a| ==> b[i] == a[i] || (a[i].Image? && b[i].Text? && Valid(b[i].text))
  }

  /** What becomes of a block: an image gives way to a text when the policy refuses it, when it
      is larger than what is left of the bytes, or when no slot is free, in that order. */
  function Settle(child: Block, refuse: Block -> bool, describe: (Block, Refusal) -> Placeholder, left: nat, free: Option<nat>): Block
  {
    if child.Text? then child
    else if refuse(child) then Text(describe(child, ByPolicy))
    else if |child.data| > left then Text(describe(child, OverImageBudget))
    else if free == Some(0) then Text(describe(child, NoSlotLeft))
    else child
  }

  function SlotsLeft(slots: Option<nat>, used: nat): Option<nat>
  {
    if slots.None? then None else if slots.value < used then Some(0) else Some(slots.value - used)
  }

  function BytesLeft(budget: nat, used: nat): nat
  {
    if budget < used then 0 else budget - used
  }

  /** Each block is settled with what the kept images before it have left. */
  ghost predicate SettledEach(children: seq<Block>, refuse: Block -> bool, describe: (Block, Refusal) -> Placeholder, budget: nat, slots: Option<nat>, out: seq<Block>)
  {
    |out| == |children| && forall i :: 0 <= i < |children| ==>
      out[i] == Settle(children[i], refuse, describe, BytesLeft(budget, ImageTotal(out[..i])), SlotsLeft(slots, ImageCount(out[..i])))
  }

  /** The images of one result: what is kept is taken from the bytes and the slots. */
  method PrepareOne(children: seq<Block>, refuse: Block -> bool, describe: (Block, Refusal) -> Placeholder, budget: nat, slots: Option<nat>)
    returns (out: seq<Block>, budget': nat, slots': Option<nat>)
    ensures SettledEach(children, refuse, describe, budget, slots, out)
    ensures ImagesReplaced(children, out) && ImageTotal(out) + budget' == budget
    ensures if slots.None? then slots'.None? else slots'.Some? && ImageCount(out) + slots'.value == slots.value
  {
    hide ImagesReplaced, ImageTotal, ImageCount, Valid, SettledEach;
    NothingReplaced();
    NothingSettled(refuse, describe, budget, slots);
    out, budget', slots' := [], budget, slots;
    assert children[..0] == [];
    for i := 0 to |children|
      invariant |out| == i && ImagesReplaced(children[..i], out) && SettledEach(children[..i], refuse, describe, budget, slots, out)
      invariant budget' >= 0 && ImageTotal(out) + budget' == budget
      invariant if slots.None? then slots'.None? else slots'.Some? && ImageCount(out) + slots'.value == slots.value
    {
      var child := children[i];
      var kept := child;
      ghost var left, free := budget', slots';
      if child.Image? {
        if refuse(child) {
          kept := Text(describe(child, ByPolicy));
        } else if |child.data| > budget' {
          kept := Text(describe(child, OverImageBudget));
        } else if slots' == Some(0) {
          kept := Text(describe(child, NoSlotLeft));
        } else {
          budget' := budget' - |child.data|;
          if slots'.Some? {
            slots' := Some(slots'.value - 1);
          }
        }
      }
      assert children[..i + 1] == children[..i] + [child];
      assert kept == Settle(child, refuse, describe, left, free);
      OneMoreBlock(children[..i], child, out, kept);
      OneMoreSettled(children[..i], child, refuse, describe, budget, slots, out, kept);
      out := out + [kept];
    }
    assert children[..|children|] == children;
  }

  lemma NothingSettled(refuse: Block -> bool, describe: (Block, Refusal) -> Placeholder, budget: nat, slots: Option<nat>)
    ensures SettledEach([], refuse, describe, budget, slots, [])
  {
  }

  lemma OneMoreSettled(children: seq<Block>, child: Block, refuse: Block -> bool, describe: (Block, Refusal) -> Placeholder, budget: nat, slots: Option<nat>, out: seq<Block>, kept: Block)
    requires SettledEach(children, refuse, describe, budget, slots, out)
    requires kept == Settle(child, refuse, describe, BytesLeft(budget, ImageTotal(out)), SlotsLeft(slots, ImageCount(out)))
    ensures SettledEach(children + [child], refuse, describe, budget, slots, out + [kept])
  {
    hide Settle, ImageTotal, ImageCount, BytesLeft, SlotsLeft;
    var more := out + [kept];
    assert forall i :: 0 <= i < |out| ==> more[..i] == out[..i];
    assert more[..|out|] == out;
  }

  lemma NothingReplaced()
    ensures ImagesReplaced([], []) && ImageTotal([]) == 0 && ImageCount([]) == 0
  {
  }

  lemma OneMoreBlock(before: seq<Block>, child: Block, out: seq<Block>, kept: Block)
    requires ImagesReplaced(before, out) && (kept == child || (child.Image? && kept.Text? && Valid(kept.text)))
    ensures ImagesReplaced(before + [child], out + [kept])
    ensures ImageTotal(out + [kept]) == ImageTotal(out) + if kept.Image? then |kept.data| else 0
    ensures ImageCount(out + [kept]) == ImageCount(out) + if kept.Image? then 1 else 0
  {
    hide Valid;
    assert (out + [kept])[..|out|] == out;
  }

  lemma PreparedValid(children: seq<Block>, out: seq<Block>)
    requires AllValid(children) && ImagesReplaced(children, out)
    ensures AllValid(out)
  {
    hide Valid;
  }

  function ChildrenAt(ms: seq<Message>, r: Ref): seq<Block>
    requires ResultAt(ms, r.message, r.content)
  {
    ms[r.message].content[r.content].result.children
  }

  /** What becomes of the images of result `i`: nothing of an omitted one, and otherwise each is
      settled with what the results before it have left. */
  ghost predicate PreparedAs(ms: seq<Message>, refs: seq<Ref>, plan: Omissions, refuse: Block -> bool, describe: (Block, Refusal) -> Placeholder,
                             budget: nat, slots: Option<nat>, prepared: seq<seq<Block>>, i: nat)
    requires SetRefs(ms, refs) && i < |refs| && i < |prepared|
  {
    if Forced(plan, refs[i].group) then prepared[i] == []
    else
      SettledEach(ChildrenAt(ms, refs[i]), refuse, describe,
                  BytesLeft(budget, Total(prepared[..i], ImageTotal)), SlotsLeft(slots, Total(prepared[..i], ImageCount)), prepared[i])
  }

  /** The images of all results, newest first; results to be omitted are left alone. */
  method PrepareAll(ms: seq<Message>, refs: seq<Ref>, plan: Omissions, refuse: Block -> bool, describe: (Block, Refusal) -> Placeholder, budget: nat, slots: Option<nat>)
    returns (prepared: seq<seq<Block>>)
    requires SetRefs(ms, refs) && forall i :: 0 <= i < |refs| ==> AllValid(ChildrenAt(ms, refs[i]))
    ensures |prepared| == |refs| && Total(prepared, ImageTotal) <= budget
    ensures slots.Some? ==> Total(prepared, ImageCount) <= slots.value
    ensures forall i :: 0 <= i < |refs| ==> AllValid(prepared[i]) && (Forced(plan, refs[i].group) ==> prepared[i] == [])
    ensures forall i :: 0 <= i < |refs| ==> PreparedAs(ms, refs, plan, refuse, describe, budget, slots, prepared, i)
  {
    hide AllValid, ImageTotal, ImageCount, ImagesReplaced, SettledEach, PreparedAs, Total, ResultAt;
    prepared := [];
    NoBodies(ImageTotal);
    NoBodies(ImageCount);
    var left, free := budget, slots;
    for i := 0 to |refs|
      invariant |prepared| == i && left >= 0 && Total(prepared, ImageTotal) + left == budget
      invariant if slots.None? then free.None? else free.Some? && Total(prepared, ImageCount) + free.value == slots.value
      invariant forall k :: 0 <= k < i ==> AllValid(prepared[k]) && (Forced(plan, refs[k].group) ==> prepared[k] == [])
      invariant forall k :: 0 <= k < i ==> PreparedAs(ms, refs, plan, refuse, describe, budget, slots, prepared, k)
    {
      var one: seq<Block> := [];
      ghost var before, unused := left, free;
      NothingWeighs();
      if !Forced(plan, refs[i].group) {
        one, left, free := PrepareOne(ChildrenAt(ms, refs[i]), refuse, describe, left, free);
        PreparedValid(ChildrenAt(ms, refs[i]), one);
      }
      OneMoreBody(prepared, one, ImageTotal);
      OneMoreBody(prepared, one, ImageCount);
      assert before == BytesLeft(budget, Total(prepared, ImageTotal)) && unused == SlotsLeft(slots, Total(prepared, ImageCount));
      OneMorePrepared(ms, refs, plan, refuse, describe, budget, slots, prepared, one);
      prepared := prepared + [one];
    }
  }

  lemma NoBodies(f: seq<Block> -> nat)
    ensures Total([], f) == 0
  {
  }

  lemma OneMoreBody(bodies: seq<seq<Block>>, body: seq<Block>, f: seq<Block> -> nat)
    ensures Total(bodies + [body], f) == Total(bodies, f) + f(body)
  {
    assert (bodies + [body])[..|bodies|] == bodies;
  }

  lemma OneMorePrepared(ms: seq<Message>, refs: seq<Ref>, plan: Omissions, refuse: Block -> bool, describe: (Block, Refusal) -> Placeholder,
                        budget: nat, slots: Option<nat>, prepared: seq<seq<Block>>, one: seq<Block>)
    requires SetRefs(ms, refs) && |prepared| < |refs|
    requires forall k :: 0 <= k < |prepared| ==> PreparedAs(ms, refs, plan, refuse, describe, budget, slots, prepared, k)
    requires var i := |prepared|;
      if Forced(plan, refs[i].group) then one == []
      else SettledEach(ChildrenAt(ms, refs[i]), refuse, describe,
                       BytesLeft(budget, Total(prepared, ImageTotal)), SlotsLeft(slots, Total(prepared, ImageCount)), one)
    ensures forall k :: 0 <= k <= |prepared| ==> PreparedAs(ms, refs, plan, refuse, describe, budget, slots, prepared + [one], k)
  {
    hide SettledEach, Total, BytesLeft, SlotsLeft, ResultAt;
    var more := prepared + [one];
    forall k | 0 <= k <= |prepared| ensures PreparedAs(ms, refs, plan, refuse, describe, budget, slots, more, k) {
      if k < |prepared| {
        assert PreparedAs(ms, refs, plan, refuse, describe, budget, slots, prepared, k);
        assert more[..k] == prepared[..k];
      } else {
        assert more[..k] == prepared;
      }
    }
  }

  lemma NothingWeighs()
    ensures ImageTotal([]) == 0 && ImageCount([]) == 0 && AllValid([]) && TextTotal([]) == 0
  {
  }
}
