/** Assembling the response from the reduced parts, and what replaying a unary response gives
    back (core/models/reducer.go:70-92, 241-315, core/models/response_limits.go:12-80). */
module Replay {
  import opened Utf8
  import opened Wrappers
  import opened Sets
  import opened Reducer
  import F = Frame

  type Reason = Bytes

  const UNKNOWN: Reason := [117, 110, 107, 110, 111, 119, 110]

  datatype Candidate = Candidate(index: nat, reason: Reason, raw: Bytes, state: Option<Bytes>, content: seq<Content>)

  datatype Finish = Finish(candidate: nat, reason: Reason, raw: Bytes, state: Option<Bytes>)

  /** What describes a response as a whole; a time that is not set is `None`. */
  datatype Info = Info(
    provider: Bytes, id: Bytes, model: Bytes, status: Bytes, requestID: Bytes,
    createdAt: Option<int>, metadata: Option<map<Bytes, Bytes>>, state: Option<Bytes>)

  datatype Response = Response(info: Info, usage: Bytes, candidates: seq<Candidate>)

  const COMPLETED: Bytes := [99, 111, 109, 112, 108, 101, 116, 101, 100]

  // ---- indexes in order ----

  ghost function Least(s: set<nat>): (m: nat)
    requires s != {}
    ensures m in s && forall x :: x in s ==> m <= x
  {
    LeastExists(s);
    var m :| m in s && forall x :: x in s ==> m <= x;
    m
  }

  lemma LeastExists(s: set<nat>)
    requires s != {}
    ensures exists m :: m in s && forall x :: x in s ==> m <= x
  {
    var m := FindLeast(s);
  }

  lemma {:induction false} FindLeast(s: set<nat>) returns (m: nat)
    requires s != {}
    ensures m in s && forall x :: x in s ==> m <= x
    decreases |s|
  {
    m :| m in s;
    var rest := s - {m};
    if rest != {} {
      var other := FindLeast(rest);
      assert forall x :: x in s ==> x == m || x in rest;
      if other < m {
        m := other;
      }
    } else {
      assert s == {m};
    }
  }

  /** slices.Sorted over the keys of a map. */
  ghost function InOrder(s: set<nat>): (r: seq<nat>)
    ensures |r| == |s| && (forall i, j :: 0 <= i < j < |r| ==> r[i] < r[j]) && (forall x :: x in r <==> x in s)
    decreases |s|
  {
    if s == {} then []
    else
      var m := Least(s);
      var rest := InOrder(s - {m});
      assert forall x :: x in rest ==> m < x;
      [m] + rest
  }

  /** Only one increasing sequence has these elements. */
  lemma {:induction false} OneOrder(a: seq<nat>, b: seq<nat>)
    requires forall i, j :: 0 <= i < j < |a| ==> a[i] < a[j]
    requires forall i, j :: 0 <= i < j < |b| ==> b[i] < b[j]
    requires forall x :: x in a <==> x in b
    ensures a == b
  {
    assert b != [] ==> b[0] in b;
    if a != [] {
      assert a[0] in b;
      SameFirst(a, b);
      forall x ensures x in a[1..] <==> x in b[1..] {
        TailElements(a, x);
        TailElements(b, x);
      }
      OneOrder(a[1..], b[1..]);
      assert a == [a[0]] + a[1..] && b == [b[0]] + b[1..];
    }
  }

  lemma SameFirst(a: seq<nat>, b: seq<nat>)
    requires a != [] && b != [] && (forall x :: x in a <==> x in b)
    requires forall i, j :: 0 <= i < j < |a| ==> a[i] < a[j]
    requires forall i, j :: 0 <= i < j < |b| ==> b[i] < b[j]
    ensures a[0] == b[0]
  {
    assert a[0] in b && b[0] in a;
    var i :| 0 <= i < |b| && b[i] == a[0];
    var j :| 0 <= j < |a| && a[j] == b[0];
  }

  lemma TailElements(a: seq<nat>, x: nat)
    requires a != [] && forall i, j :: 0 <= i < j < |a| ==> a[i] < a[j]
    ensures x in a[1..] <==> x in a && x != a[0]
  {
    if x in a && x != a[0] {
      var i :| 0 <= i < |a| && a[i] == x;
      assert a[1..][i - 1] == x;
    }
  }

  // ---- assembling ----

  ghost function Indexes(parts: Parts, finishes: seq<Finish>): set<nat>
  {
    (set k | k in parts :: k.0) + (set i | 0 <= i < |finishes| :: finishes[i].candidate)
  }

  ghost function PartIndexes(parts: Parts, i: nat): set<nat>
  {
    set k | k in parts && k.0 == i :: k.1
  }

  ghost predicate AllComplete(parts: Parts)
  {
    forall k :: k in parts ==> parts[k].Complete?
  }

  ghost function ContentAt(parts: Parts, i: nat, order: seq<nat>): seq<Content>
    requires AllComplete(parts) && forall p :: p in order ==> (i, p) in parts
  {
    seq(|order|, n requires 0 <= n < |order| => assert order[n] in order; parts[(i, order[n])].content)
  }

  function FinishOf(finishes: seq<Finish>, i: nat): Finish
  {
    if finishes == [] then Finish(i, [], [], None)
    else if finishes[|finishes| - 1].candidate == i then finishes[|finishes| - 1]
    else FinishOf(finishes[..|finishes| - 1], i)
  }

  function Filled(reason: Reason): Reason
  {
    if reason == [] then UNKNOWN else reason
  }

  ghost function CandidateAt(parts: Parts, finishes: seq<Finish>, i: nat): Candidate
    requires AllComplete(parts)
  {
    var f := FinishOf(finishes, i);
    Candidate(i, Filled(f.reason), f.raw, f.state, ContentAt(parts, i, InOrder(PartIndexes(parts, i))))
  }

  /** end: refused while a part is open, or when two finishes are for the same candidate. */
  ghost function Assemble(parts: Parts, finishes: seq<Finish>): Option<seq<Candidate>>
  {
    if !AllComplete(parts) || exists i, j :: 0 <= i < j < |finishes| && finishes[i].candidate == finishes[j].candidate then None
    else
      var order := InOrder(Indexes(parts, finishes));
      Some(seq(|order|, n requires 0 <= n < |order| => CandidateAt(parts, finishes, order[n])))
  }

  // ---- contents of an assembled response ----

  /** Each content is that of a part which got one start, its deltas and one end; the contents
      of a candidate are its parts in the order of their indexes, and no part is missing. */
  lemma ContentsAreFinished(rules: Rules, events: seq<PartEvent>, finishes: seq<Finish>, n: nat)
    requires Reduce(rules, events).Some? && Assemble(Reduce(rules, events).value, finishes).Some?
    requires n < |Assemble(Reduce(rules, events).value, finishes).value|
    ensures var c := Assemble(Reduce(rules, events).value, finishes).value[n];
      exists order: seq<nat> :: FinishedInOrder(rules, events, c, order)
  {
    hide Reduce, InOrder, PartsAre, FinishedInOrder;
    var parts := Reduce(rules, events).value;
    ReduceByPart(rules, events);
    var c := Assemble(parts, finishes).value[n];
    CandidateFinished(rules, events, parts, c, InOrder(PartIndexes(parts, c.index)));
  }

  lemma CandidateFinished(rules: Rules, events: seq<PartEvent>, parts: Parts, c: Candidate, order: seq<nat>)
    requires PartsAre(rules, events, Some(parts)) && AllComplete(parts)
    requires forall i, j :: 0 <= i < j < |order| ==> order[i] < order[j]
    requires forall p: nat :: p in order <==> (c.index, p) in parts
    requires c.content == ContentAt(parts, c.index, order)
    ensures FinishedInOrder(rules, events, c, order)
  {
    hide FoldPart, IsFinished, Project;
    forall p: nat ensures p in order <==> Project(events, (c.index, p)) != [] {
      TouchedExactly(rules, events, (c.index, p), parts);
    }
    forall i | 0 <= i < |order| ensures IsFinished(rules, Project(events, (c.index, order[i])), c.content[i]) {
      var k := (c.index, order[i]);
      assert order[i] in order;
      assert At(parts, k) == FoldPart(rules, Project(events, k));
      CompleteExactly(rules, Project(events, k), c.content[i]);
    }
  }

  ghost predicate FinishedInOrder(rules: Rules, events: seq<PartEvent>, c: Candidate, order: seq<nat>)
  {
    && |order| == |c.content| && (forall i, j :: 0 <= i < j < |order| ==> order[i] < order[j])
    && (forall p: nat :: p in order <==> Project(events, (c.index, p)) != [])
    && (forall i :: 0 <= i < |order| ==> IsFinished(rules, Project(events, (c.index, order[i])), c.content[i]))
  }

  lemma TouchedExactly(rules: Rules, events: seq<PartEvent>, k: Key, parts: Parts)
    requires PartsAre(rules, events, Some(parts))
    ensures k in parts <==> Project(events, k) != []
  {
    hide PartStep;
    NoOps(rules);
    assert At(parts, k) == FoldPart(rules, Project(events, k));
    if Project(events, k) != [] {
      var ops := Project(events, k);
      NeverAbsent(rules, FoldPart(rules, ops[..|ops| - 1]), ops[|ops| - 1]);
    }
  }

  /** Any two interleavings of the same operations per part make the same response. */
  lemma InterleavingsAssemble(rules: Rules, a: seq<PartEvent>, b: seq<PartEvent>, finishes: seq<Finish>)
    requires forall k :: Project(a, k) == Project(b, k)
    ensures Reduce(rules, a).Some? <==> Reduce(rules, b).Some?
    ensures Reduce(rules, a).Some? ==> Assemble(Reduce(rules, a).value, finishes) == Assemble(Reduce(rules, b).value, finishes)
  {
    InterleavingsAgree(rules, a, b);
  }

  // ---- the description ----

  /** start: the stream's own provider stands in for one that is not given. */
  function Started(provider: Bytes, given: Info): Info
  {
    if given.provider == [] then given.(provider := provider) else given
  }

  function Given(now: Bytes, given: Bytes): Bytes
  {
    if given == [] then now else given
  }

  /** end: what is given replaces what was; the provider must not change. */
  function Ended(now: Info, given: Option<Info>): Option<Info>
  {
    if given.None? then Some(now)
    else
      var g := given.value;
      if g.provider != [] && g.provider != now.provider then None
      else
        Some(Info(now.provider, Given(now.id, g.id), Given(now.model, g.model), Given(now.status, g.status), Given(now.requestID, g.requestID),
                  if g.createdAt.None? then now.createdAt else g.createdAt, if g.metadata.None? then now.metadata else g.metadata,
                  if g.state.None? then now.state else g.state))
  }

  /** What the result holds is what was given, or what there was before when nothing was given. */
  predicate Replaces(result: Bytes, was: Bytes, given: Bytes)
  {
    result in [was, given] && (given != [] ==> result == given) && (given == [] ==> result == was)
  }

  predicate ReplacesOption<T(==)>(result: Option<T>, was: Option<T>, given: Option<T>)
  {
    (given != None ==> result == given) && (given == None ==> result == was)
  }

  /** The description of a response: its provider is fixed at the start, by the description given
      there or else by the stream, and an end that names another one is refused; every other field
      is that of the end, or that of the start where the end leaves it out. */
  lemma DescriptionOf(provider: Bytes, first: Info, last: Info)
    ensures Ended(Started(provider, first), None) == Some(first.(provider := if first.provider != [] then first.provider else provider))
    ensures var fixed := if first.provider != [] then first.provider else provider;
      var r := Ended(Started(provider, first), Some(last));
      && (r == None <==> last.provider !in {[], fixed})
      && (r != None ==>
            && r.value.provider == fixed
            && Replaces(r.value.id, first.id, last.id) && Replaces(r.value.model, first.model, last.model)
            && Replaces(r.value.status, first.status, last.status) && Replaces(r.value.requestID, first.requestID, last.requestID)
            && ReplacesOption(r.value.createdAt, first.createdAt, last.createdAt)
            && ReplacesOption(r.value.metadata, first.metadata, last.metadata)
            && ReplacesOption(r.value.state, first.state, last.state))
  {
  }

  function WithStatus(i: Info): Info
  {
    if i.status == [] then i.(status := COMPLETED) else i
  }

  // ---- replaying ----

  /** The part events of the first `n` parts of a candidate. */
  function PartEvents(c: Candidate, n: nat): seq<PartEvent>
    requires n <= |c.content|
  {
    if n == 0 then []
    else PartEvents(c, n - 1) + [PartEvent((c.index, n - 1), Start(c.content[n - 1])), PartEvent((c.index, n - 1), End)]
  }

  function ReplayEvents(cs: seq<Candidate>): seq<PartEvent>
  {
    if cs == [] then [] else ReplayEvents(cs[..|cs| - 1]) + PartEvents(cs[|cs| - 1], |cs[|cs| - 1].content|)
  }

  function ReplayFinishes(cs: seq<Candidate>): (r: seq<Finish>)
    ensures |r| == |cs| && forall i :: 0 <= i < |r| ==> r[i] == Finish(cs[i].index, cs[i].reason, cs[i].raw, cs[i].state)
  {
    seq(|cs|, i requires 0 <= i < |cs| => Finish(cs[i].index, cs[i].reason, cs[i].raw, cs[i].state))
  }

  /** The source walks candidates and parts with two cursors and two phases. */
  class ResponseEvents {
    const candidates: seq<Candidate>
    var inPart: bool
    var candidate: nat
    var part: nat

    ghost predicate Valid()
      reads this
    {
      candidate <= |candidates| && (if candidate < |candidates| then part <= |candidates[candidate].content| && (inPart ==> part < |candidates[candidate].content|) else part == 0 && !inPart)
    }

    /** What was produced so far. */
    ghost function Done(): seq<PartEvent>
      requires Valid()
      reads this
    {
      ReplayEvents(candidates[..candidate])
      + (if candidate < |candidates| then PartEvents(candidates[candidate], part) else [])
      + (if inPart then [PartEvent((candidates[candidate].index, part), Start(candidates[candidate].content[part]))] else [])
    }

    constructor (candidates: seq<Candidate>)
      ensures Valid() && this.candidates == candidates && Done() == []
    {
      this.candidates := candidates;
      inPart, candidate, part := false, 0, 0;
    }

    /** The next part event, or none once every part was produced. */
    method Next() returns (e: Option<PartEvent>)
      requires Valid()
      modifies this
      ensures Valid()
      ensures e.Some? ==> Done() == old(Done()) + [e.value]
      ensures e.None? ==> Done() == old(Done()) == ReplayEvents(candidates)
    {
      hide ReplayEvents;
      while candidate < |candidates|
        invariant Valid() && Done() == old(Done())
        decreases |candidates| - candidate
      {
        var c := candidates[candidate];
        if part >= |c.content| {
          AllParts(candidates, candidate);
          candidate := candidate + 1;
          part := 0;
          assert Done() == ReplayEvents(candidates[..candidate]);
          continue;
        }
        if !inPart {
          inPart := true;
          return Some(PartEvent((c.index, part), Start(c.content[part])));
        }
        inPart := false;
        e := Some(PartEvent((c.index, part), End));
        part := part + 1;
        return;
      }
      assert candidates[..candidate] == candidates;
      e := None;
    }
  }

  lemma AllParts(cs: seq<Candidate>, n: nat)
    requires n < |cs|
    ensures ReplayEvents(cs[..n + 1]) == ReplayEvents(cs[..n]) + PartEvents(cs[n], |cs[n].content|)
  {
    assert cs[..n + 1][..n] == cs[..n];
  }

  // ---- what the replayed events do to each part ----

  lemma {:induction false} ProjectConcat(a: seq<PartEvent>, b: seq<PartEvent>, k: Key)
    ensures Project(a + b, k) == Project(a, k) + Project(b, k)
  {
    if b == [] {
      assert a + b == a;
    } else {
      var front, last := b[..|b| - 1], b[|b| - 1];
      assert (a + b)[..|a + b| - 1] == a + front;
      ProjectConcat(a, front, k);
      var more := if last.key == k then [last.op] else [];
      assert Project(a, k) + (Project(front, k) + more) == Project(a, k) + Project(front, k) + more;
    }
  }

  lemma PairProject(k0: Key, c: Content, k: Key)
    ensures Project([PartEvent(k0, Start(c)), PartEvent(k0, End)], k) == if k == k0 then [Start(c), End] else []
  {
    var pair := [PartEvent(k0, Start(c)), PartEvent(k0, End)];
    assert pair[..1] == [PartEvent(k0, Start(c))] && pair[..1][..0] == [];
    assert Project([], k) == [];
    assert Project(pair[..1], k) == if k == k0 then [Start(c)] else [];
  }

  lemma {:induction false} PartEventsProject(c: Candidate, n: nat, k: Key)
    requires n <= |c.content|
    ensures Project(PartEvents(c, n), k) == if k.0 == c.index && k.1 < n then [Start(c.content[k.1]), End] else []
  {
    hide Project;
    if n == 0 {
      NothingProject(k);
    } else {
      PartEventsProject(c, n - 1, k);
      PairProject((c.index, n - 1), c.content[n - 1], k);
      ProjectConcat(PartEvents(c, n - 1), [PartEvent((c.index, n - 1), Start(c.content[n - 1])), PartEvent((c.index, n - 1), End)], k);
    }
  }

  lemma NothingProject(k: Key)
    ensures Project([], k) == []
  {
  }

  ghost predicate DistinctIndexes(cs: seq<Candidate>)
  {
    forall i, j :: 0 <= i < j < |cs| ==> cs[i].index != cs[j].index
  }

  lemma {:induction false} ReplayProject(cs: seq<Candidate>, n: nat, k: Key)
    requires DistinctIndexes(cs) && n < |cs| && k.0 == cs[n].index
    ensures Project(ReplayEvents(cs), k) == if k.1 < |cs[n].content| then [Start(cs[n].content[k.1]), End] else []
  {
    hide Project, PartEvents;
    var front, last := cs[..|cs| - 1], cs[|cs| - 1];
    ProjectConcat(ReplayEvents(front), PartEvents(last, |last.content|), k);
    PartEventsProject(last, |last.content|, k);
    if n == |cs| - 1 {
      ReplayElsewhere(front, k);
    } else {
      ReplayProject(front, n, k);
    }
    var a := Project(ReplayEvents(front), k);
    assert a + [] == a && [] + Project(PartEvents(last, |last.content|), k) == Project(PartEvents(last, |last.content|), k);
  }

  lemma {:induction false} ReplayElsewhere(cs: seq<Candidate>, k: Key)
    requires forall n :: 0 <= n < |cs| ==> cs[n].index != k.0
    ensures Project(ReplayEvents(cs), k) == []
  {
    hide Project, PartEvents;
    if cs == [] {
      NothingProject(k);
    } else {
      var front, last := cs[..|cs| - 1], cs[|cs| - 1];
      ReplayElsewhere(front, k);
      ProjectConcat(ReplayEvents(front), PartEvents(last, |last.content|), k);
      PartEventsProject(last, |last.content|, k);
    }
  }

  lemma StartEnd(rules: Rules, c: Content)
    ensures var p := FoldPart(rules, [Start(c), End]); p.Broken? || p == Complete(c)
    ensures FoldPart(rules, []) == Absent
  {
    FoldMore(rules, [Start(c)], End);
    FoldMore(rules, [], Start(c));
    assert [Start(c)] + [End] == [Start(c), End] && [] + [Start(c)] == [Start(c)];
    Unadded(c);
  }

  lemma Unadded(c: Content)
    ensures Finished(c, []) == Some(c)
  {
    match c
    case Text(t) => assert t + [] == t;
    case Reasoning(t) => assert t + [] == t;
    case Refusal(t) => assert t + [] == t;
    case Image(_, _, _, d) => assert d + [] == d;
    case ToolCall(_, _, _) =>
  }

  /** The parts hold all content of candidate `c`. */
  ghost predicate HoldsOne(c: Candidate, parts: Parts)
  {
    forall p: nat :: p < |c.content| ==> At(parts, (c.index, p)) == Complete(c.content[p])
  }

  /** The key is that of a content of the response. */
  ghost predicate Belongs(cs: seq<Candidate>, k: Key)
  {
    exists n :: 0 <= n < |cs| && cs[n].index == k.0 && k.1 < |cs[n].content|
  }

  /** The parts after an accepted replay are the contents of the response. */
  ghost predicate HoldsContents(cs: seq<Candidate>, parts: Parts)
  {
    (forall n :: 0 <= n < |cs| ==> HoldsOne(cs[n], parts)) && (forall k :: k in parts ==> Belongs(cs, k))
  }

  lemma ReplayHolds(rules: Rules, cs: seq<Candidate>)
    requires DistinctIndexes(cs) && Reduce(rules, ReplayEvents(cs)).Some?
    ensures HoldsContents(cs, Reduce(rules, ReplayEvents(cs)).value)
  {
    hide Reduce, ReplayEvents, FoldPart, Project;
    var events := ReplayEvents(cs);
    ReduceByPart(rules, events);
    var parts := Reduce(rules, events).value;
    forall n | 0 <= n < |cs| ensures HoldsOne(cs[n], parts) {
      forall p: nat | p < |cs[n].content| ensures At(parts, (cs[n].index, p)) == Complete(cs[n].content[p]) {
        var k := (cs[n].index, p);
        ReplayProject(cs, n, k);
        StartEnd(rules, cs[n].content[p]);
        assert At(parts, k) == FoldPart(rules, Project(events, k));
      }
    }
    forall k | k in parts ensures Belongs(cs, k) {
      assert At(parts, k) == FoldPart(rules, Project(events, k));
      OnlyOwnKeys(rules, cs, k);
    }
  }

  lemma OnlyOwnKeys(rules: Rules, cs: seq<Candidate>, k: Key)
    requires DistinctIndexes(cs)
    ensures Belongs(cs, k) || FoldPart(rules, Project(ReplayEvents(cs), k)) == Absent
  {
    hide ReplayEvents, FoldPart, Project;
    StartEnd(rules, Text([]));
    if n :| 0 <= n < |cs| && cs[n].index == k.0 {
      ReplayProject(cs, n, k);
    } else {
      ReplayElsewhere(cs, k);
    }
  }

  // ---- what comes back ----

  lemma {:induction false} FinishIs(cs: seq<Candidate>, n: nat)
    requires DistinctIndexes(cs) && n < |cs|
    ensures FinishOf(ReplayFinishes(cs), cs[n].index) == Finish(cs[n].index, cs[n].reason, cs[n].raw, cs[n].state)
  {
    var front := cs[..|cs| - 1];
    assert ReplayFinishes(cs)[..|cs| - 1] == ReplayFinishes(front);
    if n < |cs| - 1 {
      FinishIs(front, n);
    }
  }

  lemma RangeInOrder(s: set<nat>, n: nat)
    requires forall x: nat :: x in s <==> x < n
    ensures InOrder(s) == seq(n, i requires 0 <= i < n => i)
  {
    var range: seq<nat> := seq(n, i requires 0 <= i < n => i);
    forall x: nat ensures x in range <==> x in s {
      if x < n { assert range[x] == x; }
    }
    OneOrder(InOrder(s), range);
  }

  lemma OwnIndexes(cs: seq<Candidate>, parts: Parts, n: nat)
    requires DistinctIndexes(cs) && HoldsContents(cs, parts) && n < |cs|
    ensures forall p: nat :: p in PartIndexes(parts, cs[n].index) <==> p < |cs[n].content|
  {
    var c := cs[n];
    assert HoldsOne(c, parts);
    forall p: nat ensures p in PartIndexes(parts, c.index) <==> p < |c.content| {
      if p < |c.content| {
        assert At(parts, (c.index, p)) == Complete(c.content[p]);
        assert (c.index, p) in parts;
      }
      if p in PartIndexes(parts, c.index) {
        assert Belongs(cs, (c.index, p));
      }
    }
  }

  lemma OwnContent(c: Candidate, parts: Parts, order: seq<nat>)
    requires AllComplete(parts) && HoldsOne(c, parts) && order == seq(|c.content|, i requires 0 <= i < |c.content| => i)
    requires forall p :: p in order ==> (c.index, p) in parts
    ensures ContentAt(parts, c.index, order) == c.content
  {
    forall p | 0 <= p < |c.content| ensures ContentAt(parts, c.index, order)[p] == c.content[p] {
      assert order[p] == p && At(parts, (c.index, p)) == Complete(c.content[p]);
    }
  }

  lemma CandidateComesBack(cs: seq<Candidate>, parts: Parts, n: nat)
    requires DistinctIndexes(cs) && HoldsContents(cs, parts) && AllComplete(parts) && n < |cs|
    ensures CandidateAt(parts, ReplayFinishes(cs), cs[n].index) == cs[n].(reason := Filled(cs[n].reason))
  {
    hide InOrder, FinishOf, ContentAt;
    var c := cs[n];
    assert HoldsOne(c, parts);
    FinishIs(cs, n);
    OwnIndexes(cs, parts, n);
    RangeInOrder(PartIndexes(parts, c.index), |c.content|);
    OwnContent(c, parts, InOrder(PartIndexes(parts, c.index)));
  }

  ghost function IndexSet(cs: seq<Candidate>): set<nat>
  {
    set i | 0 <= i < |cs| :: cs[i].index
  }

  /** The response that the replayed events of a unary response reduce to. */
  ghost function Replayed(rules: Rules, r: Response): Option<Response>
  {
    var info := Ended(Started(r.info.provider, r.info), Some(r.info));
    var parts := Reduce(rules, ReplayEvents(r.candidates));
    if parts.None? || info.None? then None
    else
      var cs := Assemble(parts.value, ReplayFinishes(r.candidates));
      if cs.None? then None else Some(Response(WithStatus(info.value), r.usage, cs.value))
  }

  /** The same response with its candidates in the order of their indexes, an empty status
      "completed" and every empty finish reason "unknown". */
  predicate SameButDefaults(r: Response, out: Response)
  {
    && out.usage == r.usage && |out.candidates| == |r.candidates|
    && (r.info.status != [] ==> out.info == r.info)
    && (r.info.status == [] ==> out.info == r.info.(status := F.Ascii("completed")))
    && (forall i, j :: 0 <= i < j < |out.candidates| ==> out.candidates[i].index < out.candidates[j].index)
    && (forall c :: c in r.candidates && c.reason != [] ==> c in out.candidates)
    && (forall c :: c in r.candidates && c.reason == [] ==> c.(reason := F.Ascii("unknown")) in out.candidates)
  }

  /** Replaying a unary response, when it is accepted, gives back its description and usage, and
      every candidate with all its content, in the order of the indexes; only an empty status
      and empty finish reasons are filled in. */
  lemma ReplayGivesBack(rules: Rules, r: Response)
    requires Replayed(rules, r).Some?
    ensures SameButDefaults(r, Replayed(rules, r).value)
  {
    hide Reduce, ReplayEvents, Assemble, DistinctIndexes, F.Ascii;
    var cs := r.candidates;
    CandidatesComeBack(rules, cs);
    InfoComesBack(r.info);
    DefaultNames();
    OnlyReasonsFilled(cs, Replayed(rules, r).value.candidates);
  }

  lemma DefaultNames()
    ensures UNKNOWN == F.Ascii("unknown") && COMPLETED == F.Ascii("completed")
  {
  }

  lemma OnlyReasonsFilled(cs: seq<Candidate>, out: seq<Candidate>)
    requires forall n :: 0 <= n < |cs| ==> cs[n].(reason := Filled(cs[n].reason)) in out
    ensures forall c :: c in cs && c.reason != [] ==> c in out
    ensures forall c :: c in cs && c.reason == [] ==> c.(reason := F.Ascii("unknown")) in out
  {
    hide F.Ascii;
    DefaultNames();
    forall c | c in cs ensures c.(reason := Filled(c.reason)) in out {
      var n :| 0 <= n < |cs| && cs[n] == c;
    }
    forall c | c in cs && c.reason != [] ensures c in out {
      assert c.(reason := Filled(c.reason)) == c;
    }
  }

  lemma InfoComesBack(i: Info)
    ensures Ended(Started(i.provider, i), Some(i)) == Some(i)
  {
  }

  lemma CandidatesComeBack(rules: Rules, cs: seq<Candidate>)
    requires Reduce(rules, ReplayEvents(cs)).Some?
    requires Assemble(Reduce(rules, ReplayEvents(cs)).value, ReplayFinishes(cs)).Some?
    ensures var out := Assemble(Reduce(rules, ReplayEvents(cs)).value, ReplayFinishes(cs)).value;
      && |out| == |cs|
      && (forall i, j :: 0 <= i < j < |out| ==> out[i].index < out[j].index)
      && (forall n :: 0 <= n < |cs| ==> cs[n].(reason := Filled(cs[n].reason)) in out)
  {
    hide Reduce, ReplayEvents, CandidateAt, HoldsContents;
    var parts := Reduce(rules, ReplayEvents(cs)).value;
    var finishes := ReplayFinishes(cs);
    assert DistinctIndexes(cs) by {
      forall i, j | 0 <= i < j < |cs| ensures cs[i].index != cs[j].index {
        assert finishes[i].candidate == cs[i].index && finishes[j].candidate == cs[j].index;
      }
    }
    ReplayHolds(rules, cs);
    SameIndexes(cs, parts);
    var order := InOrder(Indexes(parts, finishes));
    var out := Assemble(parts, finishes).value;
    forall n | 0 <= n < |cs| ensures cs[n].(reason := Filled(cs[n].reason)) in out {
      CandidateComesBack(cs, parts, n);
      assert cs[n].index in order;
      var m :| 0 <= m < |order| && order[m] == cs[n].index;
      assert out[m] == CandidateAt(parts, finishes, order[m]);
    }
    forall i | 0 <= i < |out| ensures out[i].index == order[i] {
      IndexOf(parts, finishes, order[i]);
    }
    IndexCount(cs);
  }

  lemma IndexOf(parts: Parts, finishes: seq<Finish>, i: nat)
    requires AllComplete(parts)
    ensures CandidateAt(parts, finishes, i).index == i
  {
  }

  lemma SameIndexes(cs: seq<Candidate>, parts: Parts)
    requires HoldsContents(cs, parts)
    ensures Indexes(parts, ReplayFinishes(cs)) == IndexSet(cs)
  {
    var finishes := ReplayFinishes(cs);
    forall i | i in IndexSet(cs) ensures i in Indexes(parts, finishes) {
      var n :| 0 <= n < |cs| && cs[n].index == i;
      assert finishes[n].candidate == i;
    }
    forall i | i in Indexes(parts, finishes) ensures i in IndexSet(cs) {
      if n :| 0 <= n < |finishes| && finishes[n].candidate == i {
        assert cs[n].index == i;
      } else {
        var k :| k in parts && k.0 == i;
        assert Belongs(cs, k);
      }
    }
  }

  lemma {:induction false} IndexCount(cs: seq<Candidate>)
    requires DistinctIndexes(cs)
    ensures |IndexSet(cs)| == |cs|
  {
    hide IndexSet;
    if cs == [] {
      NoIndexes();
    } else {
      IndexCount(cs[..|cs| - 1]);
      LastIndex(cs);
    }
  }

  lemma NoIndexes()
    ensures IndexSet([]) == {}
  {
  }

  lemma LastIndex(cs: seq<Candidate>)
    requires cs != [] && DistinctIndexes(cs)
    ensures IndexSet(cs) == IndexSet(cs[..|cs| - 1]) + {cs[|cs| - 1].index} && cs[|cs| - 1].index !in IndexSet(cs[..|cs| - 1])
  {
    var front, last := cs[..|cs| - 1], cs[|cs| - 1];
    forall x | x in IndexSet(front) ensures x in IndexSet(cs) {
      var i :| 0 <= i < |front| && front[i].index == x;
      assert cs[i].index == x;
    }
    assert cs[|cs| - 1].index in IndexSet(cs);
    forall x | x in IndexSet(cs) && x != last.index ensures x in IndexSet(front) {
      var i :| 0 <= i < |cs| && cs[i].index == x;
      assert front[i].index == x;
    }
  }
}
