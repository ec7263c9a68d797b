/** The whole projection of a history into a request
    (runtime/loops/context_tools.go:69-270). */
module ProjectRequest {
  import opened Utf8
  import opened Wrappers
  import opened Frame
  import opened Marker
  import opened Truncate
  import opened Wire
  import opened ToolHistory
  import opened Shortening
  import opened ProjectionText
  import opened Projection
  import opened ProjectContext
  import opened ProjectedBodies

  datatype Policy = Unknown | Known(inlineImages: bool, maxImages: nat)

  datatype Projected =
    | Projected(messages: seq<Message>, dropped: nat, summary: Bytes)
    | InvalidHistory
    | CannotChoose(why: Choice)
    | TooManyImages
    | TextDoesNotFit

  ghost predicate ResultTextsValid(ms: seq<Message>)
  {
    forall m, c :: 0 <= m < |ms| && 0 <= c < |ms[m].content| && ms[m].content[c].ResultContent? ==>
      AllValid(ms[m].content[c].result.children)
  }

  function OrdinaryImages(content: seq<Content>): nat
  {
    if content == [] then 0
    else (if content[0].Ordinary? && content[0].block.Image? then 1 else 0) + OrdinaryImages(content[1..])
  }

  function CountOrdinaryImages(ms: seq<Message>): nat
  {
    if ms == [] then 0 else OrdinaryImages(ms[0].content) + CountOrdinaryImages(ms[1..])
  }

  /** Every image outside tool results counts. */
  lemma {:induction false} OrdinaryImagesAddUp(a: seq<Content>, b: seq<Content>)
    ensures OrdinaryImages(a + b) == OrdinaryImages(a) + OrdinaryImages(b)
    ensures forall x: Content :: OrdinaryImages([x]) == if x.Ordinary? && x.block.Image? then 1 else 0
  {
    forall x: Content ensures [x][1..] == [] && [x][0] == x {
    }
    if a == [] {
      assert a + b == b;
    } else {
      assert (a + b)[1..] == a[1..] + b;
      OrdinaryImagesAddUp(a[1..], b);
    }
  }

  lemma {:induction false} MessageImagesAddUp(a: seq<Message>, b: seq<Message>)
    ensures CountOrdinaryImages(a + b) == CountOrdinaryImages(a) + CountOrdinaryImages(b)
    ensures forall m: Message :: CountOrdinaryImages([m]) == OrdinaryImages(m.content)
  {
    hide OrdinaryImages;
    forall m: Message ensures [m][1..] == [] && [m][0] == m {
    }
    if a == [] {
      assert a + b == b;
    } else {
      assert (a + b)[1..] == a[1..] + b;
      MessageImagesAddUp(a[1..], b);
    }
  }

  lemma {:induction false} SameOrdinaryImages(a: seq<Content>, b: seq<Content>)
    requires SameContents(a, b)
    ensures OrdinaryImages(a) == OrdinaryImages(b)
  {
    if a != [] {
      assert SameContent(a[0], b[0]);
      SameOrdinaryImages(a[1..], b[1..]);
    }
  }

  lemma {:induction false} SameImageCount(a: seq<Message>, b: seq<Message>)
    requires SameShape(a, b)
    ensures CountOrdinaryImages(a) == CountOrdinaryImages(b)
  {
    hide SameContents, OrdinaryImages;
    if a != [] {
      assert SameMessage(a[0], b[0]);
      SameOrdinaryImages(a[0].content, b[0].content);
      SameImageCount(a[1..], b[1..]);
    }
  }

  /** With a known policy all images of the request together are within it, and without inline
      images the results show none. */
  ghost predicate WithinPolicy(policy: Policy, out: seq<Message>)
  {
    policy.Known? ==>
      if policy.inlineImages then CountOrdinaryImages(out) + Weigh(out, ImageCount) <= policy.maxImages else Weigh(out, ImageCount) == 0
  }

  /** The exchanges kept and the messages between them. */
  ghost predicate KeepsHistory(ms: seq<Message>, k: nat, summary: Bytes, out: seq<Message>)
  {
    && k <= |Exchanges(ms)| && (Exchanges(ms) != [] ==> k < |Exchanges(ms)|)
    && WellPaired(out)
    && |Exchanges(out)| == |Exchanges(ms)| - k
    && (forall i :: 0 <= i < |Exchanges(out)| ==>
          Exchanges(out)[i].call == Exchanges(ms)[k + i].call && SameMessage(Exchanges(ms)[k + i].result, Exchanges(out)[i].result))
    && Others(out) == (if k == 0 then Others(ms)
                       else var n := OthersBefore(ms, k); Others(ms)[..n] + [SummaryMessage(summary)] + Others(ms)[n..])
  }

  ghost predicate WithinContext(limits: ContextLimits, summary: Bytes, out: seq<Message>)
  {
    && |Exchanges(out)| <= limits.maxExchanges
    && ArgumentBytes(AllCalls(out)) <= limits.maxArguments
    && |summary| + Weigh(out, TextTotal) <= limits.maxText
    && Weigh(out, ImageTotal) <= limits.maxImages
  }

  /** Images outside tool results are never dropped, so they must fit the policy. */
  predicate ImagesFit(policy: Policy, out: seq<Message>)
  {
    policy.Known? && policy.inlineImages ==> CountOrdinaryImages(out) <= policy.maxImages
  }

  /** The images a request may still take; no limit is set when the policy is not known. */
  function Slots(policy: Policy, out: seq<Message>): Option<nat>
    requires ImagesFit(policy, out)
  {
    if policy.Unknown? then None else if !policy.inlineImages then Some(0) else Some(policy.maxImages - CountOrdinaryImages(out))
  }

  /** When a history is projected at all. */
  ghost predicate Projectable(ms: seq<Message>, limits: ContextLimits, policy: Policy, plan: Contraction, summarize: nat -> Option<Bytes>)
  {
    WellPaired(ms) && exists k: nat, summary :: ProjectableAt(ms, limits, policy, plan, summarize, k, summary)
  }

  ghost predicate ProjectableAt(ms: seq<Message>, limits: ContextLimits, policy: Policy, plan: Contraction, summarize: nat -> Option<Bytes>, k: nat, summary: Bytes)
  {
    && ExactChoice(Exchanges(ms), limits, plan, summarize, Chosen(k, summary))
    && k <= |Exchanges(ms)| && ImagesFit(policy, DropFirst(ms, k, summary))
  }

  /** How the bodies of a request came about: the list of its results, their images, the fair
      and the final allowances, and the bodies. */
  datatype Details = Details(refs: seq<Ref>, prepared: seq<seq<Block>>, fair: seq<int>, given: seq<nat>, bodies: seq<seq<Block>>)

  function Groups(refs: seq<Ref>): (r: seq<nat>)
    ensures |r| == |refs|
  {
    seq(|refs|, i requires 0 <= i < |refs| => refs[i].group)
  }

  function CallOrder(refs: seq<Ref>): nat -> int
  {
    (i: nat) => if i < |refs| then refs[i].callIndex as int else 0
  }

  /** Of two results that are cut, that of the later call gets no less. */
  ghost predicate LaterCallsNoLess(refs: seq<Ref>, prepared: seq<seq<Block>>, fair: seq<int>)
    requires |refs| == |prepared| == |fair|
  {
    var sizes := SizesOf(prepared);
    forall i, j :: 0 <= i < |refs| && 0 <= j < |refs| && refs[i].callIndex < refs[j].callIndex && Cut(sizes, fair, i) && Cut(sizes, fair, j) ==>
      fair[i] <= fair[j]
  }

  lemma CallsInOrder(refs: seq<Ref>, omit: Omissions, prepared: seq<seq<Block>>, budget: nat, fair: seq<int>)
    requires |refs| == |prepared| == |fair| && budget >= |refs| * RESULT_RESERVE
    requires FairForLatest(omit, Groups(refs), CallOrder(refs), prepared, budget, fair)
    ensures LaterCallsNoLess(refs, prepared, fair)
  {
    hide FairForLatest, SizesOf, Cut, Groups;
    forall i, j | 0 <= i < |refs| && 0 <= j < |refs| && refs[i].callIndex < refs[j].callIndex
      && Cut(SizesOf(prepared), fair, i) && Cut(SizesOf(prepared), fair, j)
      ensures fair[i] <= fair[j]
    {
      LaterCallNoLess(omit, Groups(refs), CallOrder(refs), prepared, budget, fair, i, j);
    }
  }

  /** The request shows every result with its images settled in order and its text under its
      allowance. */
  ghost predicate ShownAs(sha: Bytes -> Digest, out: seq<Message>, maxImages: nat, omit: Omissions, refuse: Block -> bool, describe: (Block, Refusal) -> Placeholder,
                          slots: Option<nat>, budget: nat, d: Details, shown: seq<Message>)
  {
    && AllResults(out, d.refs) && SetRefs(out, d.refs)
    && |d.prepared| == |d.fair| == |d.given| == |d.bodies| == |d.refs| && budget >= |d.refs| * RESULT_RESERVE
    && (forall i :: 0 <= i < |d.refs| ==> PreparedAs(out, d.refs, omit, refuse, describe, maxImages, slots, d.prepared, i))
    && FairForLatest(omit, Groups(d.refs), CallOrder(d.refs), d.prepared, budget, d.fair)
    && LaterCallsNoLess(d.refs, d.prepared, d.fair)
    && Allowed(omit, Groups(d.refs), d.fair, budget, d.given, d.bodies)
    && (forall i :: 0 <= i < |d.refs| ==> BodyOf(sha, omit, d.refs[i].group, d.prepared[i], d.given[i], d.bodies[i]))
    && shown == SetAll(out, d.refs, d.bodies)
  }

  /** projectToolContextPlanned. The newest exchanges are kept, always the latest; each call
      stays next to its results and nothing but result bodies changes; the summary and all
      result bodies together stay within the text budget, and the errors of the text
      allocation cannot occur. */
  method ProjectToolContext(sha: Bytes -> Digest, ms: seq<Message>, limits: ContextLimits, policy: Policy, plan: Contraction,
                            refuse: Block -> bool, describe: (Block, Refusal) -> Placeholder, summarize: nat -> Option<Bytes>)
    returns (r: Projected, ghost d: Details)
    requires RolesFit(ms) && ResultTextsValid(ms)
    ensures r.InvalidHistory? <==> !WellPaired(ms)
    ensures !r.TextDoesNotFit?
    ensures r.Projected? <==> Projectable(ms, limits, policy, plan, summarize)
    ensures r.CannotChoose? ==> ExactChoice(Exchanges(ms), limits, plan, summarize, r.why) && !r.why.Chosen?
    ensures r.Projected? ==> ProjectableAt(ms, limits, policy, plan, summarize, r.dropped, r.summary)
    ensures r.Projected? ==> KeepsHistory(ms, r.dropped, r.summary, r.messages) && RolesFit(r.messages)
    ensures r.Projected? ==> WithinContext(limits, r.summary, r.messages) && WithinPolicy(policy, r.messages)
    ensures r.Projected? ==> |r.summary| <= limits.maxText
    ensures r.Projected? ==>
      var out := DropFirst(ms, r.dropped, r.summary);
      ShownAs(sha, out, limits.maxImages, plan.omit, refuse, describe, Slots(policy, out), limits.maxText - |r.summary|, d, r.messages)
    ensures r.Projected? && r.dropped > 0 ==> plan.allowDeletion && summarize(r.dropped) == Some(r.summary)
    ensures r.Projected? && r.dropped == 0 ==> r.summary == []
  {
    hide *;
    d := Details([], [], [], [], []);
    var valid := ValidateToolHistory(ms);
    ValidIsPaired(ms);
    if !valid {
      NotProjectable(ms, limits, policy, plan, summarize);
      return InvalidHistory, d;
    }
    var starts := ToolExchangeSpans(ms);
    var groups := Exchanges(ms);
    var choice := ChooseKept(groups, limits, plan, summarize);
    OnlyProjectableAt(ms, limits, policy, plan, summarize, choice);
    if !choice.Chosen? {
      return CannotChoose(choice), d;
    }
    var k, summary := choice.keepStart, choice.summary;
    ChosenIsGood(groups, limits, plan, summarize, k, summary);
    ChoiceFacts(groups, limits, plan, summarize, k, summary);
    StartTotal(ms, starts);
    var out := RemoveDropped(ms, starts, k, summary);
    DropFirstShape(ms, k, summary);
    DropFirstRoles(ms, k, summary);
    DroppedTexts(ms, k, summary);
    KeptResults(groups, k, 0);
    assert groups[k..] == Exchanges(out);
    var slots := CountSlots(policy, out);
    if slots.None? {
      return TooManyImages, d;
    }
    var shown: Option<seq<Message>>;
    shown, d := ShowResults(sha, out, limits, plan.omit, refuse, describe, slots.value, limits.maxText - |summary|);
    if shown.None? {
      return TextDoesNotFit, d;
    }
    Conclude(ms, k, summary, out, shown.value, limits);
    SameRoles(out, shown.value);
    SameImageCount(out, shown.value);
    PolicyHolds(policy, out, shown.value);
    r := Projected(shown.value, k, summary);
  }

  /** The free slots; nothing when the images outside tool results are too many. */
  method CountSlots(policy: Policy, out: seq<Message>) returns (r: Option<Option<nat>>)
    ensures r.Some? <==> ImagesFit(policy, out)
    ensures r.Some? ==> r.value == Slots(policy, out)
  {
    if policy.Unknown? {
      return Some(None);
    }
    var slots := 0;
    if policy.inlineImages {
      var ordinary := CountOrdinaryImages(out);
      if ordinary > policy.maxImages {
        return None;
      }
      slots := policy.maxImages - ordinary;
    }
    r := Some(Some(slots));
  }

  lemma PolicyHolds(policy: Policy, out: seq<Message>, shown: seq<Message>)
    requires ImagesFit(policy, out) && CountOrdinaryImages(shown) == CountOrdinaryImages(out)
    requires Slots(policy, out).Some? ==> Weigh(shown, ImageCount) <= Slots(policy, out).value
    ensures WithinPolicy(policy, shown)
  {
    hide CountOrdinaryImages, Weigh;
  }

  lemma NotProjectable(ms: seq<Message>, limits: ContextLimits, policy: Policy, plan: Contraction, summarize: nat -> Option<Bytes>)
    requires !WellPaired(ms)
    ensures !Projectable(ms, limits, policy, plan, summarize)
  {
    hide WellPaired, ProjectableAt;
  }

  lemma OnlyProjectableAt(ms: seq<Message>, limits: ContextLimits, policy: Policy, plan: Contraction, summarize: nat -> Option<Bytes>, choice: Choice)
    requires WellPaired(ms) && ExactChoice(Exchanges(ms), limits, plan, summarize, choice)
    ensures !choice.Chosen? ==> !Projectable(ms, limits, policy, plan, summarize)
    ensures choice.Chosen? ==>
      (Projectable(ms, limits, policy, plan, summarize) <==> ProjectableAt(ms, limits, policy, plan, summarize, choice.keepStart, choice.summary))
    ensures choice.Chosen? ==> choice.keepStart <= |Exchanges(ms)|
    ensures choice.Chosen? ==>
      (ProjectableAt(ms, limits, policy, plan, summarize, choice.keepStart, choice.summary)
       <==> ImagesFit(policy, DropFirst(ms, choice.keepStart, choice.summary)))
  {
    hide WellPaired, Exchanges, ExactChoice, ImagesFit, DropFirst;
    if choice.Chosen? {
      ChosenIsGood(Exchanges(ms), limits, plan, summarize, choice.keepStart, choice.summary);
    }
    forall k: nat, summary | ProjectableAt(ms, limits, policy, plan, summarize, k, summary) ensures choice == Chosen(k, summary) {
      ChoiceUnique(Exchanges(ms), limits, plan, summarize, choice, Chosen(k, summary));
    }
  }

  lemma SameRoles(a: seq<Message>, b: seq<Message>)
    requires SameShape(a, b) && RolesFit(a)
    ensures RolesFit(b)
  {
    hide SameMessage, Matching, CallsIn, ResultsIn;
    forall i | 0 <= i < |b| ensures (Calls(b[i]) != [] ==> b[i].role == Assistant) && (Results(b[i]) != [] ==> b[i].role == User) {
      assert SameMessage(a[i], b[i]);
      SameParts(a[i], b[i]);
    }
  }

  lemma ChoiceFacts(groups: seq<Exchange>, limits: ContextLimits, plan: Contraction, summarize: nat -> Option<Bytes>, k: nat, summary: Bytes)
    requires GoodChoice(groups, limits, plan, summarize, k, summary)
    ensures k <= |groups| && (groups != [] ==> k < |groups|) && |groups| - k <= limits.maxExchanges
    ensures ArgumentsFrom(groups, k) <= limits.maxArguments && ResultsFrom(groups, k) * RESULT_RESERVE + |summary| <= limits.maxText
    ensures ResultsFrom(groups, k) * RESULT_RESERVE <= limits.maxText - |summary|
    ensures if k > 0 then plan.allowDeletion && summarize(k) == Some(summary) else summary == []
  {
  }

  lemma StartTotal(ms: seq<Message>, starts: seq<nat>)
    requires WellPaired(ms) && starts == StartsFrom(ms, 0)
    ensures |starts| == |Exchanges(ms)|
  {
    hide Calls, Exchanges;
    assert ms[0..] == ms;
    StartCount(ms, 0);
  }

  lemma {:induction false} KeptResults(groups: seq<Exchange>, k: nat, i: nat)
    requires k + i <= |groups|
    ensures ResultsFrom(groups[k..], i) == ResultsFrom(groups, k + i)
    decreases |groups| - i
  {
    if k + i < |groups| {
      KeptResults(groups, k, i + 1);
    }
  }

  lemma {:induction false} DroppedTexts(ms: seq<Message>, k: nat, summary: Bytes)
    requires ResultTextsValid(ms) && k <= |Exchanges(ms)|
    ensures ResultTextsValid(DropFirst(ms, k, summary))
  {
    hide CallsIn, AllValid;
    if k > 0 {
      if Calls(ms[0]) == [] {
        DroppedTexts(ms[1..], k, summary);
      } else {
        DroppedTexts(ms[2..], k - 1, summary);
      }
    }
  }

  /** From the list of results to their new bodies: succeeds once every result has its
      reserve. */
  method ShowResults(sha: Bytes -> Digest, out: seq<Message>, limits: ContextLimits, omit: Omissions,
                     refuse: Block -> bool, describe: (Block, Refusal) -> Placeholder, slots: Option<nat>, budget: nat)
    returns (r: Option<seq<Message>>, ghost d: Details)
    requires WellPaired(out) && ResultTextsValid(out)
    requires ResultsFrom(Exchanges(out), 0) * RESULT_RESERVE <= budget
    ensures r.Some? && SameShape(out, r.value)
    ensures ShownAs(sha, out, limits.maxImages, omit, refuse, describe, slots, budget, d, r.value)
    ensures Weigh(r.value, TextTotal) <= budget && Weigh(r.value, ImageTotal) <= limits.maxImages
    ensures slots.Some? ==> Weigh(r.value, ImageCount) <= slots.value
  {
    hide *;
    var refs := ProjectedToolResults(out);
    AllResultsParts(out, refs);
    RefsReady(out, refs);
    var prepared := PrepareAll(out, refs, omit, refuse, describe, limits.maxImages, slots);
    var groups := Groups(refs);
    GroupsOrdered(out, refs, groups);
    var allocation, fair, given := AllocateText(sha, omit, groups, CallOrder(refs), prepared, budget);
    FairLength(omit, groups, CallOrder(refs), prepared, budget, fair);
    if !allocation.Shared? {
      assert false;
      return None, Details([], [], [], [], []);
    }
    var bodies := allocation.bodies;
    BodiesTotal(bodies);
    BodiesImages(sha, omit, groups, prepared, given, bodies);
    NothingWeighs();
    BodiesWeigh(out, refs, bodies, TextTotal);
    BodiesWeigh(out, refs, bodies, ImageTotal);
    BodiesWeigh(out, refs, bodies, ImageCount);
    var done := PutBodies(out, refs, bodies);
    r := Some(done);
    d := Details(refs, prepared, fair, given, bodies);
    Shows(sha, out, limits.maxImages, omit, refuse, describe, slots, budget, d, done);
  }

  lemma FairLength(plan: Omissions, groups: seq<nat>, callIndex: nat -> int, prepared: seq<seq<Block>>, budget: nat, fair: seq<int>)
    requires |groups| == |prepared| && budget >= |groups| * RESULT_RESERVE && FairForLatest(plan, groups, callIndex, prepared, budget, fair)
    ensures |fair| == |groups|
  {
    hide Fair;
  }

  lemma Shows(sha: Bytes -> Digest, out: seq<Message>, maxImages: nat, omit: Omissions, refuse: Block -> bool, describe: (Block, Refusal) -> Placeholder,
              slots: Option<nat>, budget: nat, d: Details, shown: seq<Message>)
    requires AllResults(out, d.refs) && SetRefs(out, d.refs)
    requires |d.prepared| == |d.fair| == |d.given| == |d.bodies| == |d.refs| && budget >= |d.refs| * RESULT_RESERVE
    requires forall i :: 0 <= i < |d.refs| ==> PreparedAs(out, d.refs, omit, refuse, describe, maxImages, slots, d.prepared, i)
    requires FairForLatest(omit, Groups(d.refs), CallOrder(d.refs), d.prepared, budget, d.fair)
    requires Allowed(omit, Groups(d.refs), d.fair, budget, d.given, d.bodies)
    requires forall i :: 0 <= i < |d.refs| ==> BodyOf(sha, omit, Groups(d.refs)[i], d.prepared[i], d.given[i], d.bodies[i])
    requires shown == SetAll(out, d.refs, d.bodies)
    ensures ShownAs(sha, out, maxImages, omit, refuse, describe, slots, budget, d, shown)
  {
    hide AllResults, SetRefs, PreparedAs, FairForLatest, Allowed, BodyOf, CallOrder, SetAll, LaterCallsNoLess;
    CallsInOrder(d.refs, omit, d.prepared, budget, d.fair);
  }

  method PutBodies(ms: seq<Message>, refs: seq<Ref>, bodies: seq<seq<Block>>) returns (out: seq<Message>)
    requires |refs| == |bodies| && SetRefs(ms, refs)
    ensures out == SetAll(ms, refs, bodies) && SameShape(ms, out)
  {
    out := ms;
    assert refs[..0] == [] && bodies[..0] == [];
    for i := 0 to |refs|
      invariant SetRefs(ms, refs[..i]) && out == SetAll(ms, refs[..i], bodies[..i])
    {
      hide SetBody, ResultAt, SameShape;
      assert refs[..i + 1][..i] == refs[..i] && bodies[..i + 1][..i] == bodies[..i];
      ShapeKeepsResult(ms, out, refs[i].message, refs[i].content);
      out := SetBody(out, refs[i].message, refs[i].content, bodies[i]);
    }
    assert refs[..|refs|] == refs && bodies[..|refs|] == bodies;
  }

  lemma RefsReady(ms: seq<Message>, refs: seq<Ref>)
    requires ResultTextsValid(ms) && SetRefs(ms, refs)
    ensures forall i :: 0 <= i < |refs| ==> AllValid(ChildrenAt(ms, refs[i]))
  {
    hide AllValid;
  }

  lemma GroupsOrdered(ms: seq<Message>, refs: seq<Ref>, groups: seq<nat>)
    requires AllResults(ms, refs) && groups == Groups(refs)
    ensures NewestFirst(groups) && |groups| == |refs| == ResultsFrom(Exchanges(ms), 0)
    ensures forall i :: 0 <= i < |refs| ==> groups[i] == refs[i].group
  {
  }

  lemma {:induction false} BodiesTotal(bodies: seq<seq<Block>>)
    ensures Total(bodies, TextTotal) == TotalText(bodies)
  {
    if bodies != [] {
      BodiesTotal(bodies[..|bodies| - 1]);
    }
  }

  lemma {:induction false} BodiesImages(sha: Bytes -> Digest, omit: Omissions, groups: seq<nat>, prepared: seq<seq<Block>>, given: seq<nat>, bodies: seq<seq<Block>>)
    requires |groups| == |prepared| == |given| == |bodies|
    requires forall i :: 0 <= i < |groups| ==> BodyOf(sha, omit, groups[i], prepared[i], given[i], bodies[i])
    requires forall i :: 0 <= i < |groups| ==> Forced(omit, groups[i]) ==> prepared[i] == []
    ensures Total(bodies, ImageTotal) <= Total(prepared, ImageTotal) && Total(bodies, ImageCount) <= Total(prepared, ImageCount)
  {
    hide AllValid, ImageTotal, ImageCount, Shorten, TextTotal;
    if bodies != [] {
      var last := |bodies| - 1;
      BodiesImages(sha, omit, groups[..last], prepared[..last], given[..last], bodies[..last]);
      if Forced(omit, groups[last]) {
        OnlyOmitted();
      } else {
        OnlyTextsKeepsImages(prepared[last], bodies[last]);
      }
    }
  }

  lemma OnlyOmitted()
    ensures ImageTotal([Text(OMITTED_BODY)]) == 0 && ImageCount([Text(OMITTED_BODY)]) == 0
  {
    var body := [Text(OMITTED_BODY)];
    assert body[..0] == [];
  }

  lemma {:induction false} SameArguments(groups: seq<Exchange>, kept: seq<Exchange>, k: nat, i: nat)
    requires |groups| == k + |kept| && forall j :: 0 <= j < |kept| ==> kept[j].call == groups[k + j].call
    ensures ArgumentsFrom(kept, i) == ArgumentsFrom(groups, k + i)
    decreases |kept| - i
  {
    hide ArgumentBytes, Calls;
    if i < |kept| {
      SameArguments(groups, kept, k, i + 1);
    }
  }

  lemma Conclude(ms: seq<Message>, k: nat, summary: Bytes, out: seq<Message>, shown: seq<Message>, limits: ContextLimits)
    requires WellPaired(ms) && k <= |Exchanges(ms)| && (Exchanges(ms) != [] ==> k < |Exchanges(ms)|)
    requires |Exchanges(ms)| - k <= limits.maxExchanges && |summary| <= limits.maxText
    requires ArgumentsFrom(Exchanges(ms), k) <= limits.maxArguments
    requires WellPaired(out) && Exchanges(out) == Exchanges(ms)[k..]
    requires Others(out) == (if k == 0 then Others(ms)
                             else var n := OthersBefore(ms, k); Others(ms)[..n] + [SummaryMessage(summary)] + Others(ms)[n..])
    requires SameShape(out, shown)
    requires Weigh(shown, TextTotal) <= limits.maxText - |summary| && Weigh(shown, ImageTotal) <= limits.maxImages
    ensures KeepsHistory(ms, k, summary, shown) && WithinContext(limits, summary, shown)
  {
    hide WellPaired, Exchanges, Others, OthersBefore, SummaryMessage, SameMessage, SameShape, Weigh, ArgumentBytes, AllCalls;
    SameShapeKeeps(out, shown);
    ArgumentsOfExchanges(shown);
    SameArguments(Exchanges(ms), Exchanges(shown), k, 0);
  }
}
