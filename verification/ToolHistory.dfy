/** Tool calls and their results in a message history: when results answer calls, when a
    history is well paired, and where its exchanges are
    (runtime/loops/context_tools.go:361-377, 551-613). */
module ToolHistory {
  import opened Utf8
  import opened Frame
  import opened Wire

  datatype Role = User | Assistant

  datatype Call = Call(id: Bytes, name: Bytes, arguments: Bytes)

  datatype Content =
    | Ordinary(block: Block)
    | CallContent(call: Call)
    | ResultContent(result: ToolResult)

  datatype Message = Message(role: Role, content: seq<Content>)

  function CallsIn(content: seq<Content>): seq<Call>
  {
    if content == [] then []
    else (if content[0].CallContent? then [content[0].call] else []) + CallsIn(content[1..])
  }

  function ResultsIn(content: seq<Content>): seq<ToolResult>
  {
    if content == [] then []
    else (if content[0].ResultContent? then [content[0].result] else []) + ResultsIn(content[1..])
  }

  /** Every call and every result of a message is found, in order. */
  lemma {:induction false} PartsAddUp(a: seq<Content>, b: seq<Content>)
    ensures CallsIn(a + b) == CallsIn(a) + CallsIn(b) && ResultsIn(a + b) == ResultsIn(a) + ResultsIn(b)
    ensures forall c: Call :: CallsIn([CallContent(c)]) == [c] && ResultsIn([CallContent(c)]) == []
    ensures forall r: ToolResult :: ResultsIn([ResultContent(r)]) == [r] && CallsIn([ResultContent(r)]) == []
    ensures forall x: Block :: CallsIn([Ordinary(x)]) == [] && ResultsIn([Ordinary(x)]) == []
  {
    forall x: Content ensures [x][1..] == [] && [x][0] == x {
    }
    if a == [] {
      assert a + b == b;
    } else {
      assert (a + b)[1..] == a[1..] + b;
      PartsAddUp(a[1..], b);
    }
  }

  function Calls(m: Message): seq<Call>
  {
    CallsIn(m.content)
  }

  function Results(m: Message): seq<ToolResult>
  {
    ResultsIn(m.content)
  }

  // ---- answering every call exactly once ----

  type Key = (Bytes, Bytes)

  function CallKeys(calls: seq<Call>): (r: seq<Key>)
    ensures |r| == |calls|
  {
    seq(|calls|, i requires 0 <= i < |calls| => (calls[i].id, calls[i].name))
  }

  function ResultKeys(results: seq<ToolResult>): (r: seq<Key>)
    ensures |r| == |results|
  {
    seq(|results|, i requires 0 <= i < |results| => (results[i].callID, results[i].name))
  }

  ghost predicate DistinctIDs(calls: seq<Call>)
  {
    forall i, j :: 0 <= i < j < |calls| ==> calls[i].id != calls[j].id
  }

  /** There are calls, their IDs are distinct, and the results are those calls in some order. */
  ghost predicate Matching(calls: seq<Call>, results: seq<ToolResult>)
  {
    calls != [] && DistinctIDs(calls) && multiset(CallKeys(calls)) == multiset(ResultKeys(results))
  }

  /** The code's table of calls: the last name wins. */
  function Table(calls: seq<Call>): (t: map<Bytes, Bytes>)
    ensures forall id :: id in t <==> exists i :: 0 <= i < |calls| && calls[i].id == id
  {
    if calls == [] then map[]
    else
      var last := calls[|calls| - 1];
      var t := Table(calls[..|calls| - 1]);
      assert forall id :: id in t[last.id := last.name] <==> id in t || id == last.id;
      t[last.id := last.name]
  }

  lemma {:induction false} TableSize(calls: seq<Call>)
    ensures |Table(calls)| <= |calls|
  {
    if calls != [] {
      var last, front := calls[|calls| - 1], calls[..|calls| - 1];
      TableSize(front);
      AddedKey(Table(front), last.id, last.name);
    }
  }

  lemma AddedKey(t: map<Bytes, Bytes>, k: Bytes, v: Bytes)
    ensures |t[k := v]| == |t| + if k in t then 0 else 1
  {
    assert t[k := v].Keys == t.Keys + {k};
    assert |t[k := v].Keys| == |t[k := v]| && |t.Keys| == |t|;
  }

  lemma {:induction false} FullTableDistinct(calls: seq<Call>)
    requires |Table(calls)| == |calls|
    ensures DistinctIDs(calls)
  {
    if calls != [] {
      var last, front := calls[|calls| - 1], calls[..|calls| - 1];
      AddedKey(Table(front), last.id, last.name);
      TableSize(front);
      FullTableDistinct(front);
      OneMoreID(calls, Table(front));
    }
  }

  lemma OneMoreID(calls: seq<Call>, t: map<Bytes, Bytes>)
    requires calls != [] && DistinctIDs(calls[..|calls| - 1]) && t == Table(calls[..|calls| - 1])
    ensures DistinctIDs(calls) <==> calls[|calls| - 1].id !in t
  {
    hide Table;
    var last, front := calls[|calls| - 1], calls[..|calls| - 1];
    assert forall i :: 0 <= i < |front| ==> front[i] == calls[i];
    if last.id in t {
      var i :| 0 <= i < |front| && front[i].id == last.id;
      assert calls[i].id == last.id;
    }
  }

  ghost function Items(t: map<Bytes, Bytes>): multiset<Key>
  {
    multiset(set k | k in t :: (k, t[k]))
  }

  lemma {:induction false} TableItems(calls: seq<Call>)
    requires DistinctIDs(calls)
    ensures |Table(calls)| == |calls| && Items(Table(calls)) == multiset(CallKeys(calls))
  {
    hide Items, CallKeys;
    if calls == [] {
      NoKeys(calls);
      EmptyItems(Table(calls));
    } else {
      var last, front := calls[|calls| - 1], calls[..|calls| - 1];
      assert DistinctIDs(front);
      TableItems(front);
      OneMoreID(calls, Table(front));
      AddedKey(Table(front), last.id, last.name);
      AddedItem(Table(front), last.id, last.name);
      LastKey(calls);
    }
  }

  lemma NoKeys(calls: seq<Call>)
    requires calls == []
    ensures CallKeys(calls) == []
  {
  }

  lemma LastKey(calls: seq<Call>)
    requires calls != []
    ensures var last := calls[|calls| - 1];
      multiset(CallKeys(calls)) == multiset(CallKeys(calls[..|calls| - 1])) + multiset{(last.id, last.name)}
  {
    var last := calls[|calls| - 1];
    assert CallKeys(calls) == CallKeys(calls[..|calls| - 1]) + [(last.id, last.name)];
  }

  lemma AddedItem(t: map<Bytes, Bytes>, k: Bytes, v: Bytes)
    requires k !in t
    ensures Items(t[k := v]) == Items(t) + multiset{(k, v)}
  {
    var u := t[k := v];
    var before, after := set x | x in t :: (x, t[x]), set x | x in u :: (x, u[x]);
    forall p | p in before ensures p in after {
      assert u[p.0] == t[p.0];
    }
    assert (k, u[k]) in after;
    assert after == before + {(k, v)};
    assert (k, v) !in before;
  }

  lemma RemovedItem(t: map<Bytes, Bytes>, k: Bytes)
    requires k in t
    ensures Items(t) == Items(t - {k}) + multiset{(k, t[k])} && |t - {k}| == |t| - 1
  {
    hide Items;
    var u := t - {k};
    assert u[k := t[k]] == t;
    AddedItem(u, k, t[k]);
    AddedKey(u, k, t[k]);
  }

  lemma ItemIn(t: map<Bytes, Bytes>, k: Bytes, v: Bytes)
    ensures (k, v) in Items(t) <==> k in t && t[k] == v
  {
  }

  /** matchingExchange: removing answered calls from a table decides exactly that. */
  method MatchingExchange(calls: seq<Call>, results: seq<ToolResult>) returns (r: bool)
    ensures r <==> Matching(calls, results)
  {
    hide Table, Items, Matching;
    if |calls| == 0 || |calls| != |results| {
      DifferentCounts(calls, results);
      return false;
    }
    var seen := Table(calls);
    ghost var all := seen;
    var j := 0;
    ghost var keys := ResultKeys(results);
    assert keys[..0] == [];
    while j < |results|
      invariant 0 <= j <= |results| && |seen| + j == |all|
      invariant Items(all) == Items(seen) + multiset(keys[..j])
    {
      if results[j].callID !in seen || seen[results[j].callID] != results[j].name {
        NotMatching(calls, results, seen, j);
        return false;
      }
      RemovedItem(seen, results[j].callID);
      assert keys[..j + 1] == keys[..j] + [keys[j]];
      seen := seen - {results[j].callID};
      j := j + 1;
    }
    assert keys[..j] == keys;
    AllAnswered(calls, results, seen);
    r := |seen| == 0;
  }

  lemma AllAnswered(calls: seq<Call>, results: seq<ToolResult>, seen: map<Bytes, Bytes>)
    requires calls != [] && |calls| == |results| && |seen| + |results| == |Table(calls)|
    requires Items(Table(calls)) == Items(seen) + multiset(ResultKeys(results))
    ensures |seen| == 0 && Matching(calls, results)
  {
    hide Table, Items, DistinctIDs, CallKeys, ResultKeys;
    TableSize(calls);
    FullTableDistinct(calls);
    TableItems(calls);
    EmptyItems(seen);
  }

  lemma DifferentCounts(calls: seq<Call>, results: seq<ToolResult>)
    requires |calls| == 0 || |calls| != |results|
    ensures !Matching(calls, results)
  {
    assert |calls| != |results| ==> |multiset(CallKeys(calls))| != |multiset(ResultKeys(results))|;
  }

  lemma EmptyItems(t: map<Bytes, Bytes>)
    requires |t| == 0
    ensures Items(t) == multiset{}
  {
    assert t == map[];
  }

  /** A result that finds no call of its name left refutes the match. */
  lemma NotMatching(calls: seq<Call>, results: seq<ToolResult>, seen: map<Bytes, Bytes>, j: nat)
    requires j < |results| && Items(Table(calls)) == Items(seen) + multiset(ResultKeys(results)[..j])
    requires results[j].callID !in seen || seen[results[j].callID] != results[j].name
    ensures !Matching(calls, results)
  {
    hide Items, Table, DistinctIDs;
    if Matching(calls, results) {
      var keys := ResultKeys(results);
      TableItems(calls);
      assert keys == keys[..j] + keys[j..];
      assert multiset(keys) == multiset(keys[..j]) + multiset(keys[j..]);
      assert keys[j] == keys[j..][0] && keys[j] in multiset(keys[j..]);
      CancelLeft(multiset(keys[..j]), Items(seen), multiset(keys[j..]));
      assert Items(seen) == multiset(keys[j..]);
      assert keys[j] == (results[j].callID, results[j].name);
      ItemIn(seen, results[j].callID, results[j].name);
    }
  }

  lemma CancelLeft(a: multiset<Key>, b: multiset<Key>, c: multiset<Key>)
    requires b + a == a + c
    ensures b == c
  {
    forall k ensures b[k] == c[k] {
      assert (b + a)[k] == b[k] + a[k] && (a + c)[k] == a[k] + c[k];
    }
  }

  // ---- well-paired histories ----

  /** Calls only in assistant messages, results only in user messages. */
  ghost predicate RolesFit(ms: seq<Message>)
  {
    forall i :: 0 <= i < |ms| ==> (Calls(ms[i]) != [] ==> ms[i].role == Assistant) && (Results(ms[i]) != [] ==> ms[i].role == User)
  }

  ghost predicate PairedAt(ms: seq<Message>, i: nat)
    requires i < |ms|
  {
    && (Calls(ms[i]) != [] ==> i + 1 < |ms| && Matching(Calls(ms[i]), Results(ms[i + 1])))
    && (Results(ms[i]) != [] ==> i > 0 && Matching(Calls(ms[i - 1]), Results(ms[i])))
  }

  ghost predicate ValidHistory(ms: seq<Message>)
  {
    forall i :: 0 <= i < |ms| ==> PairedAt(ms, i)
  }

  /** validateToolHistory. */
  method ValidateToolHistory(ms: seq<Message>) returns (ok: bool)
    ensures ok <==> ValidHistory(ms)
  {
    hide Matching, CallsIn, ResultsIn;
    for i := 0 to |ms|
      invariant forall j :: 0 <= j < i ==> PairedAt(ms, j)
    {
      var calls, results := Calls(ms[i]), Results(ms[i]);
      if |calls| > 0 {
        if i + 1 >= |ms| {
          assert !PairedAt(ms, i);
          return false;
        }
        var matches := MatchingExchange(calls, Results(ms[i + 1]));
        if !matches {
          assert !PairedAt(ms, i);
          return false;
        }
      }
      if |results| > 0 {
        if i == 0 {
          assert !PairedAt(ms, i);
          return false;
        }
        var matches := MatchingExchange(Calls(ms[i - 1]), results);
        if !matches {
          assert !PairedAt(ms, i);
          return false;
        }
      }
      assert PairedAt(ms, i);
    }
    ok := true;
  }

  /** A history as a list of ordinary messages and exchanges. */
  ghost predicate WellPaired(ms: seq<Message>)
  {
    ms == []
    || (Calls(ms[0]) == [] && Results(ms[0]) == [] && WellPaired(ms[1..]))
    || (|ms| >= 2 && IsExchange(ms[0], ms[1]) && WellPaired(ms[2..]))
  }

  ghost predicate IsExchange(call: Message, result: Message)
  {
    && call.role == Assistant && result.role == User && Results(call) == [] && Calls(result) == []
    && Matching(Calls(call), Results(result))
  }

  /** What validation accepts is exactly that, when roles fit. */
  lemma {:induction false} ValidIsPaired(ms: seq<Message>)
    requires RolesFit(ms)
    ensures ValidHistory(ms) <==> WellPaired(ms)
  {
    hide Matching, CallsIn, ResultsIn;
    if ValidHistory(ms) {
      ValidThenPaired(ms);
    }
    if WellPaired(ms) {
      PairedThenValid(ms);
    }
  }

  lemma {:induction false} ValidThenPaired(ms: seq<Message>)
    requires RolesFit(ms) && ValidHistory(ms)
    ensures WellPaired(ms)
  {
    hide CallsIn, ResultsIn, DistinctIDs;
    if ms != [] {
      assert PairedAt(ms, 0);
      if Calls(ms[0]) == [] {
        SkipValid(ms, 1);
        ValidThenPaired(ms[1..]);
      } else {
        assert PairedAt(ms, 1);
        SkipValid(ms, 2);
        ValidThenPaired(ms[2..]);
      }
    }
  }

  lemma SkipValid(ms: seq<Message>, n: nat)
    requires RolesFit(ms) && ValidHistory(ms) && 0 < n <= |ms| && Calls(ms[n - 1]) == []
    ensures RolesFit(ms[n..]) && ValidHistory(ms[n..])
  {
    hide CallsIn, ResultsIn, DistinctIDs;
    var rest := ms[n..];
    forall i | 0 <= i < |rest| ensures PairedAt(rest, i) {
      assert PairedAt(ms, n + i);
      assert rest[i] == ms[n + i];
      if i > 0 { assert rest[i - 1] == ms[n + i - 1]; }
      if i + 1 < |rest| { assert rest[i + 1] == ms[n + i + 1]; }
    }
    assert forall i :: 0 <= i < |rest| ==> rest[i] == ms[n + i];
  }

  lemma {:induction false} PairedThenValid(ms: seq<Message>)
    requires WellPaired(ms)
    ensures ValidHistory(ms)
    ensures ms != [] ==> Results(ms[0]) == []
  {
    hide CallsIn, ResultsIn, DistinctIDs, CallKeys, ResultKeys;
    if ms != [] {
      var n := if Calls(ms[0]) == [] then 1 else 2;
      var rest := ms[n..];
      PairedThenValid(rest);
      forall i | 0 <= i < |ms| ensures PairedAt(ms, i) {
        if i >= n {
          assert PairedAt(rest, i - n);
          assert ms[i] == rest[i - n];
          if i > n { assert ms[i - 1] == rest[i - n - 1]; }
          if i + 1 < |ms| { assert ms[i + 1] == rest[i + 1 - n]; }
        }
      }
    }
  }

  // ---- exchanges ----

  datatype Exchange = Exchange(call: Message, result: Message)

  function Exchanges(ms: seq<Message>): seq<Exchange>
  {
    if |ms| < 2 then []
    else if Calls(ms[0]) != [] then [Exchange(ms[0], ms[1])] + Exchanges(ms[2..])
    else Exchanges(ms[1..])
  }

  /** Everything outside the exchanges. */
  function Others(ms: seq<Message>): seq<Message>
  {
    if ms == [] then []
    else if Calls(ms[0]) == [] then [ms[0]] + Others(ms[1..])
    else if |ms| < 2 then []
    else Others(ms[2..])
  }

  /** Where the exchanges of a suffix start. */
  function StartsFrom(ms: seq<Message>, i: nat): (r: seq<nat>)
    ensures forall k :: 0 <= k < |r| ==> i <= r[k] < |ms|
    ensures forall j, k :: 0 <= j < k < |r| ==> r[j] + 2 <= r[k]
    decreases |ms| - i
  {
    if i >= |ms| then [] else if Calls(ms[i]) != [] then [i] + StartsFrom(ms, i + 2) else StartsFrom(ms, i + 1)
  }

  /** A calling message directly followed by a user message that answers its calls. */
  ghost predicate AnsweredAt(ms: seq<Message>, i: nat)
  {
    i + 1 < |ms| && ms[i + 1].role == User && Matching(Calls(ms[i]), Results(ms[i + 1]))
  }

  /** The exchanges of any suffix, the first one first. */
  ghost function SpansFrom(ms: seq<Message>, i: nat): seq<nat>
    decreases |ms| - i
  {
    if i >= |ms| then [] else if AnsweredAt(ms, i) then [i] + SpansFrom(ms, i + 2) else SpansFrom(ms, i + 1)
  }

  /** Answered, not overlapping, and leaving out only what overlaps an earlier one. */
  ghost predicate AreSpans(ms: seq<Message>, i: nat, r: seq<nat>)
  {
    && (forall k :: 0 <= k < |r| ==> i <= r[k] && AnsweredAt(ms, r[k]))
    && (forall j, k :: 0 <= j < k < |r| ==> r[j] + 2 <= r[k])
    && (forall m: nat :: i <= m && AnsweredAt(ms, m) ==> m in r || (m > i && m - 1 in r))
  }

  lemma {:induction false} SpansExact(ms: seq<Message>, i: nat)
    ensures AreSpans(ms, i, SpansFrom(ms, i))
    decreases |ms| - i
  {
    hide AnsweredAt;
    if i >= |ms| {
      forall m: nat | i <= m ensures !AnsweredAt(ms, m) {
        PastTheEnd(ms, m);
      }
    } else if AnsweredAt(ms, i) {
      SpansExact(ms, i + 2);
      OneMoreSpan(ms, i, SpansFrom(ms, i + 2));
    } else {
      SpansExact(ms, i + 1);
    }
  }

  lemma OneMoreSpan(ms: seq<Message>, i: nat, rest: seq<nat>)
    requires AreSpans(ms, i + 2, rest) && AnsweredAt(ms, i)
    ensures AreSpans(ms, i, [i] + rest)
  {
    hide AnsweredAt;
    var r := [i] + rest;
    forall m: nat | i <= m && AnsweredAt(ms, m) ensures m in r || (m > i && m - 1 in r) {
      if m >= i + 2 {
        assert m in rest || m - 1 in rest;
      } else {
        assert r[0] == i;
      }
    }
  }

  lemma PastTheEnd(ms: seq<Message>, m: nat)
    requires m >= |ms|
    ensures !AnsweredAt(ms, m)
  {
  }

  /** In a well-paired history every calling message starts one. */
  lemma {:induction false} SpansWhenPaired(ms: seq<Message>, i: nat)
    requires i <= |ms| && WellPaired(ms[i..])
    ensures SpansFrom(ms, i) == StartsFrom(ms, i)
    decreases |ms| - i
  {
    hide CallsIn, ResultsIn, DistinctIDs, CallKeys, ResultKeys;
    if i < |ms| {
      var rest := ms[i..];
      assert rest[0] == ms[i] && rest[1..] == ms[i + 1..];
      if Calls(ms[i]) == [] {
        SpansWhenPaired(ms, i + 1);
      } else {
        assert rest[1] == ms[i + 1] && rest[2..] == ms[i + 2..];
        SpansWhenPaired(ms, i + 2);
      }
    }
  }

  /** toolExchangeSpans. */
  method ToolExchangeSpans(ms: seq<Message>) returns (starts: seq<nat>)
    ensures starts == SpansFrom(ms, 0)
    ensures WellPaired(ms) ==> starts == StartsFrom(ms, 0)
  {
    hide CallsIn, ResultsIn, DistinctIDs, CallKeys, ResultKeys, WellPaired, StartsFrom;
    starts := [];
    var i := 0;
    while i < |ms|
      invariant 0 <= i && SpansFrom(ms, 0) == starts + SpansFrom(ms, i)
      decreases |ms| - i
    {
      var calls := Calls(ms[i]);
      if |calls| == 0 {
        i := i + 1;
        continue;
      }
      if i + 1 >= |ms| || ms[i + 1].role != User {
        i := i + 1;
        continue;
      }
      var matches := MatchingExchange(calls, Results(ms[i + 1]));
      if !matches {
        i := i + 1;
        continue;
      }
      starts := starts + [i];
      i := i + 2;
    }
    if WellPaired(ms) {
      assert ms[0..] == ms;
      SpansWhenPaired(ms, 0);
    }
  }
}
