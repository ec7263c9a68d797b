/** Projecting a history into a request: which exchanges are kept, which images, which text,
    and what the outcome guarantees (runtime/loops/context_tools.go:69-355). */
module ProjectContext {
  import opened Utf8
  import opened Wrappers
  import opened Frame
  import opened Marker
  import opened Truncate
  import opened Wire
  import opened Sorting
  import opened ToolHistory
  import opened Shortening
  import opened ProjectionText
  import opened Projection

  datatype ContextLimits = ContextLimits(maxArguments: nat, maxExchanges: nat, maxText: nat, maxImages: nat)

  datatype Contraction = Contraction(allowDeletion: bool, dropOldest: nat, omit: Omissions)

  // ---- which exchanges are kept ----

  function ArgumentBytes(calls: seq<Call>): nat
  {
    if calls == [] then 0 else |calls[0].arguments| + ArgumentBytes(calls[1..])
  }

  /** Every call counts, with all bytes of its arguments. */
  lemma {:induction false} ArgumentsAddUp(a: seq<Call>, b: seq<Call>)
    ensures ArgumentBytes(a + b) == ArgumentBytes(a) + ArgumentBytes(b)
    ensures forall c: Call :: ArgumentBytes([c]) == |c.arguments|
  {
    forall c: Call ensures ArgumentBytes([c]) == |c.arguments| {
      assert [c][1..] == [];
    }
    if a == [] {
      assert a + b == b;
    } else {
      assert (a + b)[1..] == a[1..] + b;
      ArgumentsAddUp(a[1..], b);
    }
  }

  /** All calls of a history, in order. */
  function AllCalls(ms: seq<Message>): seq<Call>
  {
    if ms == [] then [] else AllCalls(ms[..|ms| - 1]) + Calls(ms[|ms| - 1])
  }

  lemma {:induction false} AllCallsFirst(ms: seq<Message>)
    requires ms != []
    ensures AllCalls(ms) == Calls(ms[0]) + AllCalls(ms[1..])
  {
    hide Calls;
    var n := |ms| - 1;
    if n == 0 {
      assert ms[..n] == [] == ms[1..];
    } else {
      AllCallsFirst(ms[..n]);
      assert ms[1..][..n - 1] == ms[..n][1..];
      assert Calls(ms[0]) + AllCalls(ms[..n][1..]) + Calls(ms[n]) == Calls(ms[0]) + (AllCalls(ms[..n][1..]) + Calls(ms[n]));
    }
  }

  /** The arguments of a well-paired history are those of its exchanges. */
  lemma {:induction false} ArgumentsOfExchanges(ms: seq<Message>)
    requires WellPaired(ms)
    ensures ArgumentBytes(AllCalls(ms)) == ArgumentsFrom(Exchanges(ms), 0)
  {
    hide CallsIn, ResultsIn, DistinctIDs, CallKeys, ResultKeys, ArgumentBytes;
    if ms == [] {
      NoArguments();
    } else {
      AllCallsFirst(ms);
      ArgumentsAddUp(Calls(ms[0]), AllCalls(ms[1..]));
      if Calls(ms[0]) == [] {
        ArgumentsOfExchanges(ms[1..]);
        assert AllCalls(ms) == AllCalls(ms[1..]);
        assert |ms| == 1 ==> Exchanges(ms[1..]) == [];
      } else {
        AllCallsFirst(ms[1..]);
        assert ms[1..][1..] == ms[2..] && ms[1..][0] == ms[1];
        assert AllCalls(ms[1..]) == AllCalls(ms[2..]);
        ArgumentsOfExchanges(ms[2..]);
        assert Exchanges(ms) == [Exchange(ms[0], ms[1])] + Exchanges(ms[2..]);
        ArgumentsShift(Exchanges(ms), Exchanges(ms[2..]), 0);
      }
    }
  }

  lemma NoArguments()
    ensures ArgumentBytes([]) == 0
  {
  }

  lemma {:induction false} ArgumentsShift(all: seq<Exchange>, rest: seq<Exchange>, i: nat)
    requires all != [] && rest == all[1..]
    ensures ArgumentsFrom(all, i + 1) == ArgumentsFrom(rest, i)
    decreases |rest| - i
  {
    if i < |rest| {
      ArgumentsShift(all, rest, i + 1);
    }
  }

  function ArgumentsFrom(groups: seq<Exchange>, i: nat): nat
    decreases |groups| - i
  {
    if i >= |groups| then 0 else ArgumentBytes(Calls(groups[i].call)) + ArgumentsFrom(groups, i + 1)
  }

  function ResultsFrom(groups: seq<Exchange>, i: nat): nat
    decreases |groups| - i
  {
    if i >= |groups| then 0 else |Results(groups[i].result)| + ResultsFrom(groups, i + 1)
  }

  /** The exchanges from `k` on fit the limits. */
  predicate FitFrom(groups: seq<Exchange>, limits: ContextLimits, k: nat)
  {
    && |groups| - k <= limits.maxExchanges && ArgumentsFrom(groups, k) <= limits.maxArguments
    && ResultsFrom(groups, k) * RESULT_RESERVE <= limits.maxText
  }

  lemma {:induction false} FewerFit(groups: seq<Exchange>, limits: ContextLimits, i: nat, j: nat)
    requires i <= j && FitFrom(groups, limits, i)
    ensures FitFrom(groups, limits, j)
    decreases j - i
  {
    if i < j {
      FewerFit(groups, limits, i + 1, j);
    }
  }

  datatype Choice =
    | Chosen(keepStart: nat, summary: Bytes)
    | LatestTooLarge
    | MustBeContinuous
    | NoSummary
    | ReserveTooLarge

  /** Nothing needs a summary while nothing is dropped. */
  function SummaryFor(summarize: nat -> Option<Bytes>, k: nat): Option<Bytes>
  {
    if k == 0 then Some([]) else summarize(k)
  }

  /** There is room for the reserves from `k` on and the summary of what comes before. */
  predicate RoomAt(groups: seq<Exchange>, limits: ContextLimits, summarize: nat -> Option<Bytes>, k: nat)
  {
    SummaryFor(summarize, k).Some? && ResultsFrom(groups, k) * RESULT_RESERVE + |SummaryFor(summarize, k).value| <= limits.maxText
  }

  /** A summary could be made, but there is no room for it. */
  predicate CrowdedAt(groups: seq<Exchange>, limits: ContextLimits, summarize: nat -> Option<Bytes>, k: nat)
  {
    SummaryFor(summarize, k).Some? && !RoomAt(groups, limits, summarize, k)
  }

  /** As many of the newest exchanges as fit. */
  ghost predicate MostKept(groups: seq<Exchange>, limits: ContextLimits, first: nat)
  {
    && first <= |groups| && FitFrom(groups, limits, first) && (groups != [] ==> first < |groups|)
    && forall k: nat :: k < first ==> !FitFrom(groups, limits, k)
  }

  /** Where the kept exchanges start after dropping some more, but never the latest. */
  function StartAt(n: nat, first: nat, drop: nat): (r: nat)
    requires first <= n && (n > 0 ==> first < n)
    ensures first <= r <= n && (n > 0 ==> r < n)
  {
    if n == 0 then 0 else if first + drop < n then first + drop else n - 1
  }

  /** Starting there, exchanges give way one by one, until the summary has room, cannot be made,
      or only the latest is left. */
  ghost predicate Decided(groups: seq<Exchange>, limits: ContextLimits, plan: Contraction, summarize: nat -> Option<Bytes>, start: nat, r: Choice)
  {
    if start > 0 && !plan.allowDeletion then r.MustBeContinuous?
    else match r
      case Chosen(k, summary) =>
        && start <= k <= |groups| && (groups != [] ==> k < |groups|) && RoomAt(groups, limits, summarize, k)
        && SummaryFor(summarize, k) == Some(summary) && forall j: nat :: start <= j < k ==> CrowdedAt(groups, limits, summarize, j)
      case NoSummary =>
        exists k: nat :: start <= k < |groups| && SummaryFor(summarize, k).None? && forall j: nat :: start <= j < k ==> CrowdedAt(groups, limits, summarize, j)
      case ReserveTooLarge =>
        groups != [] && forall j: nat :: start <= j < |groups| ==> CrowdedAt(groups, limits, summarize, j)
      case _ => false
  }

  /** Which outcome there is. */
  ghost predicate ExactChoice(groups: seq<Exchange>, limits: ContextLimits, plan: Contraction, summarize: nat -> Option<Bytes>, r: Choice)
  {
    if groups != [] && !FitFrom(groups, limits, |groups| - 1) then r.LatestTooLarge?
    else exists first: nat :: MostKept(groups, limits, first) && Decided(groups, limits, plan, summarize, StartAt(|groups|, first, plan.dropOldest), r)
  }

  /** It is the only one. */
  lemma ChoiceUnique(groups: seq<Exchange>, limits: ContextLimits, plan: Contraction, summarize: nat -> Option<Bytes>, a: Choice, b: Choice)
    requires ExactChoice(groups, limits, plan, summarize, a) && ExactChoice(groups, limits, plan, summarize, b)
    ensures a == b
  {
    hide FitFrom, RoomAt, SummaryFor;
    if !(groups != [] && !FitFrom(groups, limits, |groups| - 1)) {
      var i: nat :| MostKept(groups, limits, i) && Decided(groups, limits, plan, summarize, StartAt(|groups|, i, plan.dropOldest), a);
      var j: nat :| MostKept(groups, limits, j) && Decided(groups, limits, plan, summarize, StartAt(|groups|, j, plan.dropOldest), b);
      assert i == j;
      DecidedOnce(groups, limits, plan, summarize, StartAt(|groups|, i, plan.dropOldest), a, b);
    }
  }

  lemma DecidedOnce(groups: seq<Exchange>, limits: ContextLimits, plan: Contraction, summarize: nat -> Option<Bytes>, start: nat, a: Choice, b: Choice)
    requires start <= |groups| && Decided(groups, limits, plan, summarize, start, a) && Decided(groups, limits, plan, summarize, start, b)
    ensures a == b
  {
    hide SummaryFor;
    if start == 0 || plan.allowDeletion {
      var i := DecidedAt(groups, limits, plan, summarize, start, a);
      var j := DecidedAt(groups, limits, plan, summarize, start, b);
    }
  }

  /** Where a choice was decided: nothing but crowded places before it. */
  lemma DecidedAt(groups: seq<Exchange>, limits: ContextLimits, plan: Contraction, summarize: nat -> Option<Bytes>, start: nat, r: Choice) returns (k: nat)
    requires Decided(groups, limits, plan, summarize, start, r) && (start == 0 || plan.allowDeletion) && start <= |groups|
    ensures start <= k <= |groups| && forall j: nat :: start <= j < k ==> CrowdedAt(groups, limits, summarize, j)
    ensures if r.ReserveTooLarge? then k == |groups| > 0 else !CrowdedAt(groups, limits, summarize, k) && (groups != [] ==> k < |groups|)
    ensures r.Chosen? ==> r.keepStart == k && SummaryFor(summarize, k) == Some(r.summary)
    ensures r.Chosen? || r.ReserveTooLarge? || (r.NoSummary? && SummaryFor(summarize, k).None?)
  {
    hide SummaryFor;
    match r
    case Chosen(at, _) => k := at;
    case NoSummary => k :| start <= k < |groups| && SummaryFor(summarize, k).None? && forall j: nat :: start <= j < k ==> CrowdedAt(groups, limits, summarize, j);
    case ReserveTooLarge => k := |groups|;
  }

  ghost predicate GoodChoice(groups: seq<Exchange>, limits: ContextLimits, plan: Contraction, summarize: nat -> Option<Bytes>, k: nat, summary: Bytes)
  {
    && k <= |groups| && (groups != [] ==> k < |groups|)
    && |groups| - k <= limits.maxExchanges && ArgumentsFrom(groups, k) <= limits.maxArguments
    && ResultsFrom(groups, k) * RESULT_RESERVE + |summary| <= limits.maxText
    && (if k > 0 then plan.allowDeletion && summarize(k) == Some(summary) else summary == [])
  }

  /** What is chosen is within the limits. */
  lemma ChosenIsGood(groups: seq<Exchange>, limits: ContextLimits, plan: Contraction, summarize: nat -> Option<Bytes>, k: nat, summary: Bytes)
    requires ExactChoice(groups, limits, plan, summarize, Chosen(k, summary))
    ensures GoodChoice(groups, limits, plan, summarize, k, summary)
  {
    hide ArgumentsFrom, ResultsFrom;
    var first: nat :| MostKept(groups, limits, first) && Decided(groups, limits, plan, summarize, StartAt(|groups|, first, plan.dropOldest), Chosen(k, summary));
    FewerFit(groups, limits, first, k);
    assert first == 0 ==> !CrowdedAt(groups, limits, summarize, 0);
  }

  /** The newest exchanges that fit; the oldest of them give way to the summary, but never the
      latest. */
  method ChooseKept(groups: seq<Exchange>, limits: ContextLimits, plan: Contraction, summarize: nat -> Option<Bytes>) returns (r: Choice)
    ensures ExactChoice(groups, limits, plan, summarize, r)
  {
    hide Calls, Results, Decided;
    var keepStart := |groups|;
    var arguments, reserve := 0, 0;
    while keepStart > 0
      invariant 0 <= keepStart <= |groups| && FitFrom(groups, limits, keepStart)
      invariant arguments == ArgumentsFrom(groups, keepStart) && reserve == ResultsFrom(groups, keepStart) * RESULT_RESERVE
      invariant keepStart < |groups| ==> FitFrom(groups, limits, |groups| - 1)
    {
      var group := groups[keepStart - 1];
      var args := arguments + ArgumentBytes(Calls(group.call));
      var next := reserve + |Results(group.result)| * RESULT_RESERVE;
      var fits := |groups| - keepStart < limits.maxExchanges && args <= limits.maxArguments && next <= limits.maxText;
      assert fits <==> FitFrom(groups, limits, keepStart - 1);
      if !fits {
        if keepStart == |groups| {
          return LatestTooLarge;
        }
        NoneBefore(groups, limits, keepStart);
        break;
      }
      keepStart := keepStart - 1;
      arguments := args;
      reserve := next;
    }
    ghost var first := keepStart;
    assert MostKept(groups, limits, first);
    var dropped := 0;
    while dropped < plan.dropOldest && keepStart < |groups| - 1
      invariant dropped <= plan.dropOldest && keepStart == first + dropped
      invariant first <= keepStart <= |groups| && (groups != [] ==> keepStart < |groups|)
      invariant reserve == ResultsFrom(groups, keepStart) * RESULT_RESERVE
    {
      reserve := reserve - |Results(groups[keepStart].result)| * RESULT_RESERVE;
      keepStart := keepStart + 1;
      dropped := dropped + 1;
    }
    assert keepStart == StartAt(|groups|, first, plan.dropOldest);
    assert keepStart == 0 && groups == [] ==> FitFrom(groups, limits, 0);
    if keepStart > 0 && !plan.allowDeletion {
      Continuous(groups, limits, plan, summarize, keepStart);
      return MustBeContinuous;
    }
    FewerFit(groups, limits, first, keepStart);
    r := MakeRoom(groups, limits, plan, summarize, keepStart, reserve);
  }

  lemma NoneBefore(groups: seq<Exchange>, limits: ContextLimits, first: nat)
    requires first > 0 && !FitFrom(groups, limits, first - 1)
    ensures forall k: nat :: k < first ==> !FitFrom(groups, limits, k)
  {
    hide FitFrom;
    forall k: nat | k < first ensures !FitFrom(groups, limits, k) {
      if FitFrom(groups, limits, k) {
        FewerFit(groups, limits, k, first - 1);
      }
    }
  }

  lemma Continuous(groups: seq<Exchange>, limits: ContextLimits, plan: Contraction, summarize: nat -> Option<Bytes>, start: nat)
    requires start > 0 && !plan.allowDeletion
    ensures Decided(groups, limits, plan, summarize, start, MustBeContinuous)
  {
  }

  method MakeRoom(groups: seq<Exchange>, limits: ContextLimits, plan: Contraction, summarize: nat -> Option<Bytes>, from: nat, reserve: nat) returns (r: Choice)
    requires from <= |groups| && (groups != [] ==> from < |groups|) && (from > 0 ==> plan.allowDeletion)
    requires FitFrom(groups, limits, from) && reserve == ResultsFrom(groups, from) * RESULT_RESERVE
    ensures Decided(groups, limits, plan, summarize, from, r)
  {
    hide Calls, Results;
    var keepStart, left := from, reserve;
    while true
      invariant from <= keepStart <= |groups| && (groups != [] ==> keepStart < |groups|) && (keepStart > 0 ==> plan.allowDeletion)
      invariant left == ResultsFrom(groups, keepStart) * RESULT_RESERVE
      invariant forall j: nat :: from <= j < keepStart ==> CrowdedAt(groups, limits, summarize, j)
      decreases |groups| - keepStart
    {
      var summary: Bytes := [];
      if keepStart > 0 {
        var made := summarize(keepStart);
        if made.None? {
          assert SummaryFor(summarize, keepStart).None?;
          return NoSummary;
        }
        summary := made.value;
      }
      if left + |summary| <= limits.maxText {
        return Chosen(keepStart, summary);
      }
      assert CrowdedAt(groups, limits, summarize, keepStart);
      if keepStart >= |groups| - 1 || !plan.allowDeletion {
        return ReserveTooLarge;
      }
      left := left - |Results(groups[keepStart].result)| * RESULT_RESERVE;
      keepStart := keepStart + 1;
    }
  }

  // ---- the results to be shown ----

  datatype Ref = Ref(message: nat, content: nat, group: nat, callIndex: nat, isError: bool)

  predicate ResultAt(ms: seq<Message>, m: nat, c: nat)
  {
    m < |ms| && c < |ms[m].content| && ms[m].content[c].ResultContent?
  }

  ghost predicate DistinctRefs(refs: seq<Ref>)
  {
    forall i, j :: 0 <= i < j < |refs| ==> refs[i].message != refs[j].message || refs[i].content != refs[j].content
  }

  ghost predicate Covers(refs: seq<Ref>, m: nat, c: nat)
  {
    exists i :: 0 <= i < |refs| && refs[i].message == m && refs[i].content == c
  }

  ghost predicate AllCovered(ms: seq<Message>, refs: seq<Ref>, m: nat)
  {
    forall c: nat :: ResultAt(ms, m, c) ==> Covers(refs, m, c)
  }

  /** The code's table of call indexes: the last call with the ID, and 0 when there is none. */
  function CallIndex(calls: seq<Call>, id: Bytes): (i: nat)
    ensures i <= |calls|
    ensures (exists j :: 0 <= j < |calls| && calls[j].id == id) ==> i < |calls| && calls[i].id == id
  {
    if calls == [] then 0 else if calls[|calls| - 1].id == id then |calls| - 1 else CallIndex(calls[..|calls| - 1], id)
  }

  /** A reference tells whether its result failed and which call it answers. */
  ghost predicate Describes(ms: seq<Message>, calls: seq<Call>, r: Ref)
  {
    && ResultAt(ms, r.message, r.content)
    && var result := ms[r.message].content[r.content].result;
       r.isError == result.isError && r.callIndex == CallIndex(calls, result.callID)
  }

  /** Newest group first; within a group failures first, then in the order of the calls. */
  ghost predicate InOrder(a: Ref, b: Ref)
  {
    a.group < b.group || (a.group == b.group && if a.isError == b.isError then a.callIndex <= b.callIndex else a.isError)
  }

  /** The results of message `m`: failures first, then in the order of the calls. */
  method GroupRefs(ms: seq<Message>, calls: seq<Call>, m: nat, group: nat) returns (refs: seq<Ref>)
    requires m < |ms|
    ensures |refs| == |Results(ms[m])|
    ensures forall i :: 0 <= i < |refs| ==> refs[i].message == m && refs[i].group == group && Describes(ms, calls, refs[i])
    ensures forall i, j :: 0 <= i < j < |refs| ==> InOrder(refs[i], refs[j])
    ensures DistinctRefs(refs) && AllCovered(ms, refs, m)
  {
    hide SortStable, Sorted;
    var content := ms[m].content;
    var found: seq<Ref> := [];
    assert content[0..] == content;
    for c := 0 to |content|
      invariant |found| + |ResultsIn(content[c..])| == |ResultsIn(content)|
      invariant forall i :: 0 <= i < |found| ==> found[i].message == m && found[i].group == group && found[i].content < c && Describes(ms, calls, found[i])
      invariant forall i, j :: 0 <= i < j < |found| ==> found[i].content < found[j].content
      invariant forall k: nat :: k < c && ResultAt(ms, m, k) ==> Covers(found, m, k)
    {
      assert content[c..][1..] == content[c + 1..] && content[c..][0] == content[c];
      if content[c].ResultContent? {
        ghost var was := found;
        var result := content[c].result;
        found := found + [Ref(m, c, group, CallIndex(calls, result.callID), result.isError)];
        forall k: nat | k < c + 1 && ResultAt(ms, m, k) ensures Covers(found, m, k) {
          CoversMore(was, found, m, k, c);
        }
      }
    }
    var rank := (r: Ref) => (if r.isError then 0 else |calls| + 1) + r.callIndex;
    refs := SortStable(found, rank);
    SortedRefs(found, rank);
    forall i | 0 <= i < |refs| ensures refs[i].message == m && refs[i].group == group && Describes(ms, calls, refs[i]) {
      assert refs[i] in found;
    }
    RankOrders(refs, |calls|, group, rank);
  }

  lemma RankOrders(refs: seq<Ref>, n: nat, group: nat, rank: Ref -> int)
    requires Sorted(refs, rank) && forall r: Ref :: rank(r) == (if r.isError then 0 else n + 1) + r.callIndex
    requires forall i :: 0 <= i < |refs| ==> refs[i].group == group && refs[i].callIndex <= n
    ensures forall i, j :: 0 <= i < j < |refs| ==> InOrder(refs[i], refs[j])
  {
  }

  lemma CoversMore(was: seq<Ref>, now: seq<Ref>, m: nat, k: nat, c: nat)
    requires |now| == |was| + 1 && now[..|was|] == was && now[|was|].message == m && now[|was|].content == c
    requires k == c || Covers(was, m, k)
    ensures Covers(now, m, k)
  {
    if k == c {
      assert now[|was|].content == k;
    } else {
      var i :| 0 <= i < |was| && was[i].message == m && was[i].content == k;
      assert now[i] == was[i];
    }
  }

  lemma SortedRefs(found: seq<Ref>, rank: Ref -> int)
    requires DistinctRefs(found)
    ensures var refs := SortStable(found, rank);
      && |refs| == |found| && DistinctRefs(refs) && Sorted(refs, rank) && (forall r :: r in refs <==> r in found)
      && (forall m: nat, c: nat :: Covers(found, m, c) <==> Covers(refs, m, c))
  {
    hide SortStable;
    var refs := SortStable(found, rank);
    SortSorts(found, rank);
    assert forall i, j :: 0 <= i < j < |found| ==> found[i] != found[j];
    SameElements(found, refs);
    forall i, j | 0 <= i < j < |refs| ensures refs[i].message != refs[j].message || refs[i].content != refs[j].content {
      assert refs[i] in found && refs[j] in found;
      var a :| 0 <= a < |found| && found[a] == refs[i];
      var b :| 0 <= b < |found| && found[b] == refs[j];
    }
    forall m: nat, c: nat ensures Covers(found, m, c) <==> Covers(refs, m, c) {
      if Covers(found, m, c) {
        var i :| 0 <= i < |found| && found[i].message == m && found[i].content == c;
        assert found[i] in refs;
      }
      if Covers(refs, m, c) {
        var i :| 0 <= i < |refs| && refs[i].message == m && refs[i].content == c;
        assert refs[i] in found;
      }
    }
  }

  /** A result of the exchange its group names, counted from the newest. */
  ghost predicate InGroup(ms: seq<Message>, r: Ref)
  {
    && 0 < r.message < |ms| && Describes(ms, Calls(ms[r.message - 1]), r) && r.group < |Exchanges(ms)|
    && Exchanges(ms)[|Exchanges(ms)| - 1 - r.group] == Exchange(ms[r.message - 1], ms[r.message])
  }

  /** What the list of results promises: every result of the request once, newest group first. */
  ghost predicate AllResults(ms: seq<Message>, refs: seq<Ref>)
  {
    && (forall i :: 0 <= i < |refs| ==> InGroup(ms, refs[i]))
    && DistinctRefs(refs)
    && (forall m: nat, c: nat :: ResultAt(ms, m, c) ==> Covers(refs, m, c))
    && (forall i, j :: 0 <= i < j < |refs| ==> InOrder(refs[i], refs[j]))
    && |refs| == ResultsFrom(Exchanges(ms), 0)
  }

  /** While collecting: the groups from `g` on are in. */
  ghost predicate Collected(ms: seq<Message>, starts: seq<nat>, g: nat, refs: seq<Ref>)
  {
    && g <= |starts| == |Exchanges(ms)|
    && (forall i :: 0 <= i < |refs| ==>
          InGroup(ms, refs[i]) && refs[i].group + g < |starts| && starts[g] < refs[i].message)
    && DistinctRefs(refs)
    && (forall j :: g <= j < |starts| ==> AllCovered(ms, refs, starts[j] + 1))
    && (forall i, j :: 0 <= i < j < |refs| ==> InOrder(refs[i], refs[j]))
    && |refs| == ResultsFrom(Exchanges(ms), g)
  }

  /** projectedToolResults. */
  method ProjectedToolResults(ms: seq<Message>) returns (refs: seq<Ref>)
    requires WellPaired(ms)
    ensures AllResults(ms, refs)
  {
    hide WellPaired, Calls, Results, Collected, AllResults;
    var starts := ToolExchangeSpans(ms);
    refs := [];
    StartCollecting(ms, starts);
    for g := |starts| downto 0
      invariant Collected(ms, starts, g, refs)
    {
      ResultFollows(ms, starts, g);
      var more := GroupRefs(ms, Calls(ms[starts[g]]), starts[g] + 1, |starts| - 1 - g);
      CollectMore(ms, starts, g, refs, more);
      refs := refs + more;
    }
    EndCollecting(ms, starts, refs);
  }

  lemma StartCollecting(ms: seq<Message>, starts: seq<nat>)
    requires WellPaired(ms) && starts == StartsFrom(ms, 0)
    ensures Collected(ms, starts, |starts|, [])
  {
    hide Calls, Results, IsExchange;
    assert ms[0..] == ms;
    StartCount(ms, 0);
  }

  lemma {:induction false} StartCount(ms: seq<Message>, i: nat)
    requires i <= |ms| && WellPaired(ms[i..])
    ensures |StartsFrom(ms, i)| == |Exchanges(ms[i..])|
    decreases |ms| - i
  {
    if i < |ms| {
      FromHere(ms, i, 0, []);
      hide Calls, WellPaired;
      if Calls(ms[i]) == [] {
        StartCount(ms, i + 1);
      } else {
        StartCount(ms, i + 2);
      }
    }
  }

  lemma CollectMore(ms: seq<Message>, starts: seq<nat>, g: nat, refs: seq<Ref>, more: seq<Ref>)
    requires WellPaired(ms) && starts == StartsFrom(ms, 0) && g < |starts| && Collected(ms, starts, g + 1, refs)
    requires starts[g] + 1 < |ms| && |more| == |Results(ms[starts[g] + 1])|
    requires forall i :: 0 <= i < |more| ==>
      more[i].message == starts[g] + 1 && more[i].group == |starts| - 1 - g && Describes(ms, Calls(ms[starts[g]]), more[i])
    requires forall i, j :: 0 <= i < j < |more| ==> InOrder(more[i], more[j])
    requires DistinctRefs(more) && AllCovered(ms, more, starts[g] + 1)
    ensures Collected(ms, starts, g, refs + more)
  {
    hide WellPaired, Calls, Results, StartsFrom, Exchanges, AllCovered, Describes;
    var all := refs + more;
    assert ms[0..] == ms;
    StartsAreExchanges(ms, 0, g);
    assert forall j :: g < j < |starts| ==> starts[g] + 2 <= starts[j];
    if g + 1 < |starts| { assert starts[g] + 2 <= starts[g + 1]; }
    forall j | g <= j < |starts| ensures AllCovered(ms, all, starts[j] + 1) {
      CoversEither(ms, refs, more, starts[j] + 1);
    }
  }

  lemma CoversEither(ms: seq<Message>, a: seq<Ref>, b: seq<Ref>, m: nat)
    requires AllCovered(ms, a, m) || AllCovered(ms, b, m)
    ensures AllCovered(ms, a + b, m)
  {
    forall c: nat | ResultAt(ms, m, c) ensures Covers(a + b, m, c) {
      if Covers(a, m, c) {
        var i :| 0 <= i < |a| && a[i].message == m && a[i].content == c;
        assert (a + b)[i] == a[i];
      } else {
        var i :| 0 <= i < |b| && b[i].message == m && b[i].content == c;
        assert (a + b)[|a| + i] == b[i];
      }
    }
  }

  lemma EndCollecting(ms: seq<Message>, starts: seq<nat>, refs: seq<Ref>)
    requires WellPaired(ms) && starts == StartsFrom(ms, 0) && Collected(ms, starts, 0, refs)
    ensures AllResults(ms, refs)
  {
    hide WellPaired, Calls, ResultsIn, StartsFrom, Exchanges, Covers;
    assert ms[0..] == ms;
    forall m: nat, c: nat | ResultAt(ms, m, c) ensures Covers(refs, m, c) {
      HasResult(ms[m].content, c);
      var j := ResultHome(ms, 0, m);
      assert AllCovered(ms, refs, starts[j] + 1);
    }
  }

  lemma {:induction false} HasResult(content: seq<Content>, c: nat)
    requires c < |content| && content[c].ResultContent?
    ensures ResultsIn(content) != []
  {
    if c > 0 {
      HasResult(content[1..], c - 1);
    }
  }

  /** Results are only found in the second message of an exchange. */
  lemma {:induction false} ResultHome(ms: seq<Message>, i: nat, m: nat) returns (j: nat)
    requires i <= m < |ms| && WellPaired(ms[i..]) && Results(ms[m]) != []
    ensures j < |StartsFrom(ms, i)| && StartsFrom(ms, i)[j] + 1 == m
    decreases |ms| - i
  {
    hide CallsIn, ResultsIn, DistinctIDs, CallKeys, ResultKeys;
    var rest := ms[i..];
    assert rest[1..] == ms[i + 1..] && rest[0] == ms[i];
    if Calls(ms[i]) == [] {
      j := ResultHome(ms, i + 1, m);
    } else {
      assert rest[1] == ms[i + 1] && rest[2..] == ms[i + 2..];
      if m == i + 1 {
        j := 0;
      } else {
        j := ResultHome(ms, i + 2, m);
        j := j + 1;
      }
    }
  }
}
