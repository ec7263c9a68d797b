/** Reducing a stream of model events to a response, and replaying a finished response through
    the same reducer (core/models/reducer.go:43-327, core/models/response_limits.go:10-80,
    core/models/stream_limits.go:150-162). */
module Reducer {
  import opened Utf8
  import opened Wrappers

  datatype Content =
    | Text(text: Bytes)
    | Reasoning(text: Bytes)
    | Refusal(text: Bytes)
    | Image(uri: Bytes, mime: Bytes, detail: Bytes, data: Bytes)
    | ToolCall(id: Bytes, name: Bytes, arguments: Bytes)

  datatype DeltaKind = TextDelta | ReasoningDelta | RefusalDelta | MediaDelta | ArgumentsDelta

  datatype Op = Start(content: Content) | Delta(kind: DeltaKind, data: Bytes) | End

  /** The candidate and the part an event is about. */
  type Key = (nat, nat)

  datatype PartEvent = PartEvent(key: Key, op: Op)

  /** What validation accepts, which looks at one content at a time. */
  datatype Rules = Rules(startable: Content -> bool, valid: Content -> bool)

  // ---- one part ----

  datatype Part = Absent | Open(content: Content, added: Bytes) | Complete(content: Content) | Broken

  predicate Targets(kind: DeltaKind, c: Content)
  {
    match kind
    case TextDelta => c.Text?
    case ReasoningDelta => c.Reasoning?
    case RefusalDelta => c.Refusal?
    case MediaDelta => c.Image? && c.uri == []
    case ArgumentsDelta => c.ToolCall?
  }

  /** A part's start with what its deltas added; arguments come from one or the other. */
  function Finished(c: Content, added: Bytes): Option<Content>
  {
    match c
    case Text(text) => Some(Text(text + added))
    case Reasoning(text) => Some(Reasoning(text + added))
    case Refusal(text) => Some(Refusal(text + added))
    case Image(uri, mime, detail, data) => Some(Image(uri, mime, detail, data + added))
    case ToolCall(id, name, arguments) =>
      if added == [] then Some(c) else if arguments != [] then None else Some(ToolCall(id, name, added))
  }

  function PartStep(rules: Rules, p: Part, op: Op): Part
  {
    match op
    case Start(c) => if p.Absent? && rules.startable(c) then Open(c, []) else Broken
    case Delta(kind, data) => if p.Open? && Targets(kind, p.content) then Open(p.content, p.added + data) else Broken
    case End =>
      if !p.Open? then Broken
      else
        var done := Finished(p.content, p.added);
        if done.Some? && rules.valid(done.value) then Complete(done.value) else Broken
  }

  function FoldPart(rules: Rules, ops: seq<Op>): Part
  {
    if ops == [] then Absent else PartStep(rules, FoldPart(rules, ops[..|ops| - 1]), ops[|ops| - 1])
  }

  /** What the deltas among some operations add. */
  function Added(ops: seq<Op>): Bytes
  {
    if ops == [] then [] else Added(ops[..|ops| - 1]) + if ops[|ops| - 1].Delta? then ops[|ops| - 1].data else []
  }

  /** Deltas only, of the kind the start takes. */
  predicate DeltasFor(ops: seq<Op>, c: Content)
  {
    forall i :: 0 <= i < |ops| ==> ops[i].Delta? && Targets(ops[i].kind, c)
  }

  /** One start, then deltas. */
  predicate IsOpening(rules: Rules, ops: seq<Op>, c: Content)
  {
    ops != [] && ops[0] == Start(c) && rules.startable(c) && DeltasFor(ops[1..], c)
  }

  /** One start, then deltas, then one end; the content is the start with all deltas, in order. */
  predicate IsFinished(rules: Rules, ops: seq<Op>, c: Content)
  {
    && |ops| >= 2 && ops[|ops| - 1].End? && ops[0].Start?
    && IsOpening(rules, ops[..|ops| - 1], ops[0].content)
    && Finished(ops[0].content, Added(ops[1..|ops| - 1])) == Some(c) && rules.valid(c)
  }

  lemma {:induction false} OpenExactly(rules: Rules, ops: seq<Op>, c: Content, added: Bytes)
    ensures FoldPart(rules, ops) == Open(c, added) <==> IsOpening(rules, ops, c) && added == Added(ops[1..])
  {
    if ops != [] {
      var front, last := ops[..|ops| - 1], ops[|ops| - 1];
      if front == [] {
        assert ops == [last] && ops[1..] == [];
        assert FoldPart(rules, front) == Absent;
      } else {
        var rest := ops[1..];
        assert rest[..|rest| - 1] == front[1..];
        var before := FoldPart(rules, front);
        if before.Open? {
          OpenExactly(rules, front, before.content, before.added);
        }
        if IsOpening(rules, ops, c) {
          assert rest[|rest| - 1] == last;
          assert DeltasFor(front[1..], c);
          OpenExactly(rules, front, c, Added(front[1..]));
        }
      }
    }
  }

  /** A part is complete exactly when its operations are a start, deltas and an end, and then its
      content is the start with the deltas. */
  lemma CompleteExactly(rules: Rules, ops: seq<Op>, c: Content)
    ensures FoldPart(rules, ops) == Complete(c) <==> IsFinished(rules, ops, c)
  {
    if ops != [] {
      var front := ops[..|ops| - 1];
      var before := FoldPart(rules, front);
      if before.Open? {
        OpenExactly(rules, front, before.content, before.added);
      }
      if IsFinished(rules, ops, c) {
        OpenExactly(rules, front, ops[0].content, Added(front[1..]));
      }
      if front != [] {
        assert front[1..] == ops[1..|ops| - 1];
      }
    }
  }

  // ---- the reducer ----

  type Parts = map<Key, Part>

  function At(parts: Parts, k: Key): Part
  {
    if k in parts then parts[k] else Absent
  }

  /** The parts after some events; nothing once an event was refused. */
  function Reduce(rules: Rules, events: seq<PartEvent>): Option<Parts>
  {
    if events == [] then Some(map[])
    else
      var before := Reduce(rules, events[..|events| - 1]);
      var e := events[|events| - 1];
      if before.None? then None
      else
        var next := PartStep(rules, At(before.value, e.key), e.op);
        if next.Broken? then None else Some(before.value[e.key := next])
  }

  class PartReducer {
    const rules: Rules
    var parts: Parts
    var failed: bool

    constructor (rules: Rules)
      ensures parts == map[] && !failed && this.rules == rules
    {
      this.rules := rules;
      parts, failed := map[], false;
    }

    /** startPart, deltaPart and endPart. */
    method Apply(e: PartEvent)
      modifies this
      ensures var next := PartStep(rules, At(old(parts), e.key), e.op);
        if old(failed) || next.Broken? then failed && parts == old(parts) else !failed && parts == old(parts)[e.key := next]
    {
      if failed {
        return;
      }
      var here := At(parts, e.key);
      match e.op {
        case Start(c) =>
          if !rules.startable(c) || !here.Absent? {
            failed := true;
            return;
          }
          parts := parts[e.key := Open(c, [])];
        case Delta(kind, data) =>
          if !here.Open? || !Targets(kind, here.content) {
            failed := true;
            return;
          }
          parts := parts[e.key := Open(here.content, here.added + data)];
        case End =>
          if !here.Open? {
            failed := true;
            return;
          }
          var done := Finished(here.content, here.added);
          if done.None? || !rules.valid(done.value) {
            failed := true;
            return;
          }
          parts := parts[e.key := Complete(done.value)];
      }
    }
  }

  /** The event loop computes the reduction. */
  method ReduceAll(rules: Rules, events: seq<PartEvent>) returns (r: Option<Parts>)
    ensures r == Reduce(rules, events)
  {
    hide PartStep;
    var m := new PartReducer(rules);
    for i := 0 to |events|
      invariant fresh(m) && m.rules == rules
      invariant Reduce(rules, events[..i]) == if m.failed then None else Some(m.parts)
    {
      assert events[..i + 1][..i] == events[..i];
      m.Apply(events[i]);
    }
    assert events[..|events|] == events;
    r := if m.failed then None else Some(m.parts);
  }

  // ---- only the order within a part matters ----

  /** The operations on one part, in order. */
  function Project(events: seq<PartEvent>, k: Key): seq<Op>
  {
    if events == [] then []
    else Project(events[..|events| - 1], k) + if events[|events| - 1].key == k then [events[|events| - 1].op] else []
  }

  lemma FoldMore(rules: Rules, ops: seq<Op>, op: Op)
    ensures FoldPart(rules, ops + [op]) == PartStep(rules, FoldPart(rules, ops), op)
  {
    assert (ops + [op])[..|ops|] == ops;
  }

  /** Broken stays broken. */
  lemma BrokenStays(rules: Rules, p: Part, op: Op)
    requires p.Broken?
    ensures PartStep(rules, p, op).Broken?
  {
  }

  ghost predicate PartsAre(rules: Rules, events: seq<PartEvent>, r: Option<Parts>)
  {
    if r.None? then exists k :: FoldPart(rules, Project(events, k)).Broken?
    else forall k :: !FoldPart(rules, Project(events, k)).Broken? && At(r.value, k) == FoldPart(rules, Project(events, k))
                     && (k in r.value ==> !r.value[k].Absent?)
  }

  /** The reduction holds, for every part, the fold of that part's own operations, and refuses
      exactly when one of them does. */
  lemma {:induction false} ReduceByPart(rules: Rules, events: seq<PartEvent>)
    ensures PartsAre(rules, events, Reduce(rules, events))
  {
    hide PartStep, FoldPart;
    if events == [] {
      NoOps(rules);
    } else {
      var front, e := events[..|events| - 1], events[|events| - 1];
      ReduceByPart(rules, front);
      var before := Reduce(rules, front);
      forall k: Key ensures FoldPart(rules, Project(events, k))
        == if k == e.key then PartStep(rules, FoldPart(rules, Project(front, k)), e.op) else FoldPart(rules, Project(front, k))
      {
        FoldMore(rules, Project(front, k), e.op);
        assert Project(front, k) + [] == Project(front, k);
      }
      if before.None? {
        var k :| FoldPart(rules, Project(front, k)).Broken?;
        BrokenStays(rules, FoldPart(rules, Project(front, k)), e.op);
        assert FoldPart(rules, Project(events, k)).Broken?;
      } else {
        NeverAbsent(rules, At(before.value, e.key), e.op);
      }
    }
  }

  lemma NeverAbsent(rules: Rules, p: Part, op: Op)
    ensures !PartStep(rules, p, op).Absent?
  {
  }

  lemma NoOps(rules: Rules)
    ensures FoldPart(rules, []) == Absent
  {
  }

  /** Any two interleavings of the same operations per part reduce to the same parts, or are
      both refused. */
  lemma InterleavingsAgree(rules: Rules, a: seq<PartEvent>, b: seq<PartEvent>)
    requires forall k :: Project(a, k) == Project(b, k)
    ensures Reduce(rules, a) == Reduce(rules, b)
  {
    hide Reduce, Project, FoldPart;
    ReduceByPart(rules, a);
    ReduceByPart(rules, b);
    var x, y := Reduce(rules, a), Reduce(rules, b);
    if x.Some? && y.Some? {
      forall k: Key ensures At(x.value, k) == At(y.value, k) {
      }
      forall k: Key ensures k in x.value <==> k in y.value {
        assert At(x.value, k) == At(y.value, k);
      }
      forall k | k in x.value ensures x.value[k] == y.value[k] {
        assert At(x.value, k) == At(y.value, k);
      }
      assert x.value == y.value;
    }
  }

  // ---- what each kind of content streams as ----

  function Joined(parts: seq<Bytes>): Bytes
  {
    if parts == [] then [] else Joined(parts[..|parts| - 1]) + parts[|parts| - 1]
  }

  function Deltas(kind: DeltaKind, parts: seq<Bytes>): (r: seq<Op>)
    ensures |r| == |parts|
  {
    seq(|parts|, i requires 0 <= i < |parts| => Delta(kind, parts[i]))
  }

  /** A start, the deltas, and an end. */
  function Streamed(c: Content, kind: DeltaKind, parts: seq<Bytes>): seq<Op>
  {
    [Start(c)] + Deltas(kind, parts) + [End]
  }

  /** All deltas are added, in order, and nothing else. */
  lemma {:induction false} JoinedAddsUp(a: seq<Bytes>, b: seq<Bytes>)
    ensures Joined(a + b) == Joined(a) + Joined(b)
    ensures forall p: Bytes :: Joined([p]) == p
  {
    forall p: Bytes ensures Joined([p]) == p {
      assert [p][..0] == [];
    }
    if b == [] {
      assert a + b == a;
    } else {
      var n := |b| - 1;
      assert (a + b)[..|a + b| - 1] == a + b[..n];
      JoinedAddsUp(a, b[..n]);
      Assoc(Joined(a), Joined(b[..n]), b[n]);
    }
  }

  lemma {:induction false} DeltasAdd(rules: Rules, c: Content, kind: DeltaKind, parts: seq<Bytes>)
    requires rules.startable(c) && PartStep(rules, Open(c, []), Delta(kind, [])).Open?
    ensures FoldPart(rules, [Start(c)] + Deltas(kind, parts)) == Open(c, Joined(parts))
  {
    var ops := [Start(c)] + Deltas(kind, parts);
    if parts == [] {
      FoldMore(rules, [], Start(c));
      assert ops == [] + [Start(c)];
    } else {
      var n := |parts| - 1;
      DeltasAdd(rules, c, kind, parts[..n]);
      FoldMore(rules, [Start(c)] + Deltas(kind, parts[..n]), Delta(kind, parts[n]));
      assert ops == [Start(c)] + Deltas(kind, parts[..n]) + [Delta(kind, parts[n])];
    }
  }

  lemma StreamedEnds(rules: Rules, c: Content, kind: DeltaKind, parts: seq<Bytes>)
    requires rules.startable(c) && PartStep(rules, Open(c, []), Delta(kind, [])).Open?
    ensures FoldPart(rules, Streamed(c, kind, parts)) == PartStep(rules, Open(c, Joined(parts)), End)
  {
    DeltasAdd(rules, c, kind, parts);
    FoldMore(rules, [Start(c)] + Deltas(kind, parts), End);
  }

  /** A part that ends well, or is refused for its finished content. */
  function Accepted(rules: Rules, c: Content): Part
  {
    if rules.valid(c) then Complete(c) else Broken
  }

  /** Any number of deltas of its own kind complete a content with all of them appended; a call
      takes its arguments from its start or from its deltas, not from both. */
  lemma ContentsStream(rules: Rules, text: Bytes, uri: Bytes, mime: Bytes, detail: Bytes, data: Bytes, id: Bytes, name: Bytes, arguments: Bytes, parts: seq<Bytes>)
    ensures rules.startable(Text(text)) ==>
      FoldPart(rules, Streamed(Text(text), TextDelta, parts)) == Accepted(rules, Text(text + Joined(parts)))
    ensures rules.startable(Reasoning(text)) ==>
      FoldPart(rules, Streamed(Reasoning(text), ReasoningDelta, parts)) == Accepted(rules, Reasoning(text + Joined(parts)))
    ensures rules.startable(Refusal(text)) ==>
      FoldPart(rules, Streamed(Refusal(text), RefusalDelta, parts)) == Accepted(rules, Refusal(text + Joined(parts)))
    ensures rules.startable(Image([], mime, detail, data)) ==>
      FoldPart(rules, Streamed(Image([], mime, detail, data), MediaDelta, parts)) == Accepted(rules, Image([], mime, detail, data + Joined(parts)))
    ensures rules.startable(ToolCall(id, name, arguments)) ==>
      FoldPart(rules, Streamed(ToolCall(id, name, arguments), ArgumentsDelta, parts))
      == if Joined(parts) == [] then Accepted(rules, ToolCall(id, name, arguments))
         else if arguments == [] then Accepted(rules, ToolCall(id, name, Joined(parts)))
         else Broken
  {
    hide FoldPart, Streamed, Joined;
    if rules.startable(Text(text)) { StreamedEnds(rules, Text(text), TextDelta, parts); }
    if rules.startable(Reasoning(text)) { StreamedEnds(rules, Reasoning(text), ReasoningDelta, parts); }
    if rules.startable(Refusal(text)) { StreamedEnds(rules, Refusal(text), RefusalDelta, parts); }
    if rules.startable(Image([], mime, detail, data)) { StreamedEnds(rules, Image([], mime, detail, data), MediaDelta, parts); }
    if rules.startable(ToolCall(id, name, arguments)) { StreamedEnds(rules, ToolCall(id, name, arguments), ArgumentsDelta, parts); }
  }

  /** One delta of another kind, wherever it comes, and the part is refused. A linked image takes
      no deltas at all. */
  lemma OtherDeltasRefused(rules: Rules, ops: seq<Op>, c: Content, i: nat)
    requires 0 < i < |ops| && ops[0] == Start(c) && ops[i].Delta?
    requires match c
      case Text(_) => ops[i].kind != TextDelta
      case Reasoning(_) => ops[i].kind != ReasoningDelta
      case Refusal(_) => ops[i].kind != RefusalDelta
      case Image(uri, _, _, _) => ops[i].kind != MediaDelta || uri != []
      case ToolCall(_, _, _) => ops[i].kind != ArgumentsDelta
    ensures FoldPart(rules, ops).Broken?
  {
    hide FoldPart, Joined;
    var before := FoldPart(rules, ops[..i]);
    if before.Open? {
      OpenExactly(rules, ops[..i], before.content, before.added);
    }
    FoldMore(rules, ops[..i], ops[i]);
    assert ops[..i] + [ops[i]] == ops[..i + 1];
    StaysBroken(rules, ops, i + 1);
  }

  lemma {:induction false} StaysBroken(rules: Rules, ops: seq<Op>, i: nat)
    requires i <= |ops| && FoldPart(rules, ops[..i]).Broken?
    ensures FoldPart(rules, ops).Broken?
  {
    hide PartStep;
    if i == |ops| {
      assert ops[..i] == ops;
    } else {
      var front := ops[..|ops| - 1];
      assert front[..i] == ops[..i];
      StaysBroken(rules, front, i);
      BrokenStays(rules, FoldPart(rules, front), ops[|ops| - 1]);
    }
  }

  /** The operations as events of one part. */
  function For(k: Key, ops: seq<Op>): (r: seq<PartEvent>)
    ensures |r| == |ops|
  {
    seq(|ops|, i requires 0 <= i < |ops| => PartEvent(k, ops[i]))
  }

  /** The reduction of the events of one part is what they make of it. */
  lemma {:induction false} OnePartReduces(rules: Rules, k: Key, ops: seq<Op>)
    requires ops != []
    ensures Reduce(rules, For(k, ops)) == if FoldPart(rules, ops).Broken? then None else Some(map[k := FoldPart(rules, ops)])
  {
    hide PartStep;
    var n := |ops| - 1;
    assert For(k, ops)[..n] == For(k, ops[..n]);
    if n > 0 {
      OnePartReduces(rules, k, ops[..n]);
      if FoldPart(rules, ops[..n]).Broken? {
        BrokenStays(rules, FoldPart(rules, ops[..n]), ops[n]);
      }
    }
    var before, next := FoldPart(rules, ops[..n]), FoldPart(rules, ops);
    assert next == PartStep(rules, before, ops[n]);
    if n > 0 && !before.Broken? {
      assert map[k := before][k := next] == map[k := next];
    } else if n == 0 {
      assert ops[..0] == [] && before == Absent && For(k, ops[..0]) == [];
      assert map[][k := next] == map[k := next];
    }
  }
}
