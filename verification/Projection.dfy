/** The shape of a projected request: the oldest exchanges replaced by one summary, everything
    else in place (runtime/loops/context_tools.go:76-162). */
module Projection {
  import opened Utf8
  import opened Wrappers
  import opened Frame
  import opened Wire
  import opened ToolHistory
  import opened Shortening
  import opened ProjectionText

  // ---- dropping exchanges ----

  function SummaryMessage(summary: Bytes): (m: Message)
    ensures Calls(m) == [] && Results(m) == [] && m.role == User
  {
    var m := Message(User, [Ordinary(Text(summary))]);
    assert m.content[1..] == [] && CallsIn([]) == [] && ResultsIn([]) == [];
    m
  }

  /** The history without its first `k` exchanges; the summary stands where the last of them
      stood. */
  function DropFirst(ms: seq<Message>, k: nat, summary: Bytes): seq<Message>
    requires k <= |Exchanges(ms)|
  {
    if k == 0 then ms
    else if Calls(ms[0]) == [] then [ms[0]] + DropFirst(ms[1..], k, summary)
    else (if k == 1 then [SummaryMessage(summary)] else []) + DropFirst(ms[2..], k - 1, summary)
  }

  /** How many other messages come before the last dropped exchange. */
  function OthersBefore(ms: seq<Message>, k: nat): (n: nat)
    requires 0 < k <= |Exchanges(ms)|
    ensures n <= |Others(ms)|
  {
    if Calls(ms[0]) == [] then 1 + OthersBefore(ms[1..], k)
    else if k == 1 then 0
    else OthersBefore(ms[2..], k - 1)
  }

  lemma ConsParts(m: Message, rest: seq<Message>)
    requires Calls(m) == [] && Results(m) == []
    ensures WellPaired([m] + rest) <==> WellPaired(rest)
    ensures Exchanges([m] + rest) == Exchanges(rest) && Others([m] + rest) == [m] + Others(rest)
  {
    hide CallsIn, ResultsIn, DistinctIDs, CallKeys, ResultKeys;
    assert ([m] + rest)[1..] == rest;
    if |rest| == 0 {
      assert Exchanges(rest) == [];
    }
  }

  /** The exchanges kept are the newest ones, each call still next to its results; the other
      messages keep their order, with the summary added once. */
  lemma {:induction false} DropFirstShape(ms: seq<Message>, k: nat, summary: Bytes)
    requires WellPaired(ms) && k <= |Exchanges(ms)|
    ensures var out := DropFirst(ms, k, summary);
      && WellPaired(out)
      && Exchanges(out) == Exchanges(ms)[k..]
      && Others(out) == (if k == 0 then Others(ms)
                         else var n := OthersBefore(ms, k); Others(ms)[..n] + [SummaryMessage(summary)] + Others(ms)[n..])
  {
    hide CallsIn, ResultsIn, DistinctIDs, CallKeys, ResultKeys;
    if k > 0 {
      if Calls(ms[0]) == [] {
        var rest := DropFirst(ms[1..], k, summary);
        DropFirstShape(ms[1..], k, summary);
        ConsParts(ms[0], rest);
        assert ms == [ms[0]] + ms[1..];
        ConsParts(ms[0], ms[1..]);
        var n := OthersBefore(ms[1..], k);
        SpliceCons(ms[0], Others(ms[1..]), n, SummaryMessage(summary));
      } else {
        var rest := DropFirst(ms[2..], k - 1, summary);
        DropFirstShape(ms[2..], k - 1, summary);
        assert Exchanges(ms)[k..] == Exchanges(ms[2..])[k - 1..];
        if k == 1 {
          ConsParts(SummaryMessage(summary), rest);
          var all := Others(ms);
          assert all[..0] + [SummaryMessage(summary)] + all[0..] == [SummaryMessage(summary)] + all;
        } else {
          assert [] + rest == rest;
        }
      }
    }
  }

  lemma SpliceCons(m: Message, others: seq<Message>, n: nat, s: Message)
    requires n <= |others|
    ensures [m] + (others[..n] + [s] + others[n..]) == ([m] + others)[..n + 1] + [s] + ([m] + others)[n + 1..]
  {
  }

  lemma {:induction false} DropFirstRoles(ms: seq<Message>, k: nat, summary: Bytes)
    requires RolesFit(ms) && WellPaired(ms) && k <= |Exchanges(ms)|
    ensures RolesFit(DropFirst(ms, k, summary))
  {
    hide CallsIn, ResultsIn, DistinctIDs, CallKeys, ResultKeys;
    if k > 0 {
      if Calls(ms[0]) == [] {
        assert RolesFit(ms[1..]);
        DropFirstRoles(ms[1..], k, summary);
      } else {
        assert RolesFit(ms[2..]);
        DropFirstRoles(ms[2..], k - 1, summary);
      }
    }
  }

  // ---- the loop over the messages ----

  /** What the copying loop keeps from message `i` on. */
  ghost function KeptFrom(ms: seq<Message>, drop: seq<bool>, at: int, summary: Bytes, i: nat): seq<Message>
    requires |drop| == |ms|
    decreases |ms| - i
  {
    if i >= |ms| then []
    else (if i == at then [SummaryMessage(summary)] else []) + (if drop[i] then [] else [ms[i]]) + KeptFrom(ms, drop, at, summary, i + 1)
  }

  /** The messages of the first `k` exchanges are marked. */
  ghost predicate Marked(starts: seq<nat>, k: nat, drop: seq<bool>)
    requires k <= |starts|
  {
    forall i :: 0 <= i < |drop| ==> (drop[i] <==> exists c :: 0 <= c < k && (starts[c] == i || starts[c] + 1 == i))
  }

  lemma {:induction false} KeptIsDropFirst(ms: seq<Message>, starts: seq<nat>, k: nat, drop: seq<bool>, summary: Bytes, i: nat, c: nat)
    requires i <= |ms| && WellPaired(ms[i..]) && c <= |starts| && starts[c..] == StartsFrom(ms, i)
    requires starts == StartsFrom(ms, 0) && (forall j :: 0 <= j < c ==> starts[j] + 2 <= i)
    requires k <= |starts| && |drop| == |ms| && Marked(starts, k, drop)
    ensures |Exchanges(ms[i..])| == |starts| - c
    ensures KeptFrom(ms, drop, if k > 0 then starts[k - 1] else -1, summary, i)
      == DropFirst(ms[i..], if k > c then k - c else 0, summary)
    decreases |ms| - i
  {
    hide *;
    var at := if k > 0 then starts[k - 1] else -1;
    if i == |ms| {
      NothingKept(ms, starts, k, drop, at, summary, c);
    } else {
      FromHere(ms, i, if k > c then k - c else 0, summary);
      if Calls(ms[i]) == [] {
        KeptIsDropFirst(ms, starts, k, drop, summary, i + 1, c);
        NotMarked(ms, starts, k, drop, i, c);
        KeptOne(ms, drop, at, summary, i);
      } else {
        SecondStart(ms, starts, i, c);
        KeptIsDropFirst(ms, starts, k, drop, summary, i + 2, c + 1);
        PairMarked(ms, starts, k, drop, i, c);
        KeptTwo(ms, drop, at, summary, i);
      }
    }
  }

  lemma NothingKept(ms: seq<Message>, starts: seq<nat>, k: nat, drop: seq<bool>, at: int, summary: Bytes, c: nat)
    requires |drop| == |ms| && k <= |starts| && c <= |starts| && starts[c..] == StartsFrom(ms, |ms|)
    ensures |Exchanges(ms[|ms|..])| == |starts| - c == 0
    ensures KeptFrom(ms, drop, at, summary, |ms|) == DropFirst(ms[|ms|..], 0, summary)
  {
  }

  lemma SecondStart(ms: seq<Message>, starts: seq<nat>, i: nat, c: nat)
    requires i < |ms| && Calls(ms[i]) != [] && c <= |starts| && starts[c..] == StartsFrom(ms, i)
    ensures c < |starts| && starts[c] == i && starts[c + 1..] == StartsFrom(ms, i + 2)
  {
    hide CallsIn;
    assert starts[c..][0] == starts[c] && starts[c..][1..] == starts[c + 1..];
  }

  /** One step of the specification at message `i`. */
  lemma FromHere(ms: seq<Message>, i: nat, k: nat, summary: Bytes)
    requires i < |ms| && WellPaired(ms[i..])
    ensures Calls(ms[i]) == [] ==>
      && WellPaired(ms[i + 1..]) && Exchanges(ms[i..]) == Exchanges(ms[i + 1..]) && StartsFrom(ms, i) == StartsFrom(ms, i + 1)
      && (k <= |Exchanges(ms[i + 1..])| ==> DropFirst(ms[i..], k, summary) == [ms[i]] + DropFirst(ms[i + 1..], k, summary))
    ensures Calls(ms[i]) != [] ==>
      && i + 1 < |ms| && WellPaired(ms[i + 2..]) && |Exchanges(ms[i..])| == 1 + |Exchanges(ms[i + 2..])|
      && (k <= |Exchanges(ms[i..])| ==>
            DropFirst(ms[i..], k, summary)
            == if k == 0 then [ms[i], ms[i + 1]] + DropFirst(ms[i + 2..], 0, summary)
               else (if k == 1 then [SummaryMessage(summary)] else []) + DropFirst(ms[i + 2..], k - 1, summary))
  {
    hide CallsIn, ResultsIn, DistinctIDs, CallKeys, ResultKeys, SummaryMessage;
    var rest := ms[i..];
    assert rest[1..] == ms[i + 1..] && rest[0] == ms[i];
    if Calls(ms[i]) == [] {
      assert rest == [ms[i]] + ms[i + 1..];
      if |rest| == 1 { assert Exchanges(rest[1..]) == []; }
    } else {
      assert rest[1] == ms[i + 1] && rest[2..] == ms[i + 2..];
      assert rest == [ms[i], ms[i + 1]] + ms[i + 2..];
    }
  }

  lemma KeptOne(ms: seq<Message>, drop: seq<bool>, at: int, summary: Bytes, i: nat)
    requires |drop| == |ms| && i < |ms| && i != at && !drop[i]
    ensures KeptFrom(ms, drop, at, summary, i) == [ms[i]] + KeptFrom(ms, drop, at, summary, i + 1)
  {
  }

  lemma KeptTwo(ms: seq<Message>, drop: seq<bool>, at: int, summary: Bytes, i: nat)
    requires |drop| == |ms| && i + 1 < |ms| && i + 1 != at && drop[i] == drop[i + 1]
    ensures KeptFrom(ms, drop, at, summary, i)
      == (if i == at then [SummaryMessage(summary)] else []) + (if drop[i] then [] else [ms[i], ms[i + 1]]) + KeptFrom(ms, drop, at, summary, i + 2)
  {
    hide *;
    var head := if i == at then [SummaryMessage(summary)] else [];
    KeptStep(ms, drop, at, summary, i, []);
    KeptStep(ms, drop, at, summary, i + 1, []);
    var rest := KeptFrom(ms, drop, at, summary, i + 2);
    Empties(KeptFrom(ms, drop, at, summary, i), KeptFrom(ms, drop, at, summary, i + 1), rest, head);
    if !drop[i] {
      Regroup(head, ms[i], ms[i + 1], rest);
    }
  }

  lemma Regroup(head: seq<Message>, a: Message, b: Message, rest: seq<Message>)
    ensures head + [a] + ([b] + rest) == head + [a, b] + rest
  {
  }

  lemma Empties(a: seq<Message>, b: seq<Message>, c: seq<Message>, d: seq<Message>)
    ensures [] + a == a && [] + b == b && [] + c == c && d + [] == d
  {
  }

  lemma NotMarked(ms: seq<Message>, starts: seq<nat>, k: nat, drop: seq<bool>, i: nat, c: nat)
    requires i < |ms| && c <= |starts| && k <= |starts| && |drop| == |ms| && Marked(starts, k, drop)
    requires Calls(ms[i]) == [] && starts[c..] == StartsFrom(ms, i) && (forall j :: 0 <= j < c ==> starts[j] + 2 <= i)
    ensures !drop[i] && (k > 0 ==> starts[k - 1] != i)
  {
    hide CallsIn;
    forall j | 0 <= j < |starts| ensures starts[j] != i && starts[j] + 1 != i {
      if j >= c {
        assert starts[j] == StartsFrom(ms, i)[j - c] == StartsFrom(ms, i + 1)[j - c];
      }
    }
  }

  lemma PairMarked(ms: seq<Message>, starts: seq<nat>, k: nat, drop: seq<bool>, i: nat, c: nat)
    requires i + 1 < |ms| && c < |starts| && k <= |starts| && |drop| == |ms| && Marked(starts, k, drop)
    requires starts == StartsFrom(ms, 0) && starts[c] == i
    ensures drop[i] <==> c < k
    ensures drop[i + 1] <==> c < k
    ensures k > 0 ==> (starts[k - 1] == i <==> k == c + 1) && starts[k - 1] != i + 1
  {
    hide CallsIn;
    forall j | 0 <= j < |starts| && j != c ensures starts[j] != i && starts[j] != i + 1 && starts[j] + 1 != i {
    }
  }

  /** The marking and copying loops give the history without its first exchanges. */
  method RemoveDropped(ms: seq<Message>, starts: seq<nat>, k: nat, summary: Bytes) returns (out: seq<Message>)
    requires WellPaired(ms) && starts == StartsFrom(ms, 0) && k <= |starts|
    ensures |Exchanges(ms)| == |starts| && out == DropFirst(ms, k, summary)
  {
    hide *;
    var drop := MarkDropped(ms, starts, k);
    var summaryAt := if k > 0 then starts[k - 1] else -1;
    assert ms[0..] == ms && starts[0..] == starts;
    KeptIsDropFirst(ms, starts, k, drop, summary, 0, 0);
    out := [];
    ghost var goal := KeptFrom(ms, drop, summaryAt, summary, 0);
    assert [] + goal == goal;
    for i := 0 to |ms|
      invariant goal == out + KeptFrom(ms, drop, summaryAt, summary, i)
    {
      KeptStep(ms, drop, summaryAt, summary, i, out);
      if i == summaryAt {
        out := out + [SummaryMessage(summary)];
      }
      if drop[i] {
        continue;
      }
      out := out + [ms[i]];
    }
    KeptEnd(ms, drop, summaryAt, summary);
    assert out + [] == out;
  }

  lemma KeptStep(ms: seq<Message>, drop: seq<bool>, at: int, summary: Bytes, i: nat, out: seq<Message>)
    requires |drop| == |ms| && i < |ms|
    ensures var more := if i == at then out + [SummaryMessage(summary)] else out;
      out + KeptFrom(ms, drop, at, summary, i) == (if drop[i] then more else more + [ms[i]]) + KeptFrom(ms, drop, at, summary, i + 1)
  {
    hide SummaryMessage;
    var rest := KeptFrom(ms, drop, at, summary, i + 1);
    var a := if i == at then [SummaryMessage(summary)] else [];
    var b := if drop[i] then [] else [ms[i]];
    assert out + (a + b + rest) == out + a + b + rest;
    assert out + [] == out && out + a + [] == out + a;
  }

  lemma KeptEnd(ms: seq<Message>, drop: seq<bool>, at: int, summary: Bytes)
    requires |drop| == |ms|
    ensures KeptFrom(ms, drop, at, summary, |ms|) == []
  {
  }

  method MarkDropped(ms: seq<Message>, starts: seq<nat>, k: nat) returns (drop: seq<bool>)
    requires WellPaired(ms) && starts == StartsFrom(ms, 0) && k <= |starts|
    ensures |drop| == |ms| && Marked(starts, k, drop)
  {
    hide WellPaired, StartsFrom;
    drop := seq(|ms|, i => false);
    for c := 0 to k
      invariant |drop| == |ms| && Marked(starts, c, drop)
    {
      ResultFollows(ms, starts, c);
      ghost var was := drop;
      drop := drop[starts[c] := true][starts[c] + 1 := true];
      forall i | 0 <= i < |drop| ensures drop[i] <==> exists j :: 0 <= j < c + 1 && (starts[j] == i || starts[j] + 1 == i) {
        if was[i] {
          var j :| 0 <= j < c && (starts[j] == i || starts[j] + 1 == i);
        } else if drop[i] {
          assert starts[c] == i || starts[c] + 1 == i;
        }
      }
    }
  }

  lemma ResultFollows(ms: seq<Message>, starts: seq<nat>, c: nat)
    requires WellPaired(ms) && starts == StartsFrom(ms, 0) && c < |starts|
    ensures starts[c] + 1 < |ms| && IsExchange(ms[starts[c]], ms[starts[c] + 1])
  {
    assert ms[0..] == ms;
    StartsAreExchanges(ms, 0, c);
  }

  lemma {:induction false} StartsAreExchanges(ms: seq<Message>, i: nat, c: nat)
    requires i <= |ms| && WellPaired(ms[i..]) && c < |StartsFrom(ms, i)|
    ensures var at := StartsFrom(ms, i)[c];
      && at + 1 < |ms| && IsExchange(ms[at], ms[at + 1])
      && c < |Exchanges(ms[i..])| && Exchanges(ms[i..])[c] == Exchange(ms[at], ms[at + 1])
    decreases |ms| - i
  {
    hide *;
    var rest := ms[i..];
    FirstStart(ms, i);
    if Calls(ms[i]) == [] {
      StartsAreExchanges(ms, i + 1, c);
    } else if c > 0 {
      StartsAreExchanges(ms, i + 2, c - 1);
    }
  }

  lemma FirstStart(ms: seq<Message>, i: nat)
    requires i <= |ms| && WellPaired(ms[i..]) && StartsFrom(ms, i) != []
    ensures i < |ms|
    ensures Calls(ms[i]) == [] ==>
      WellPaired(ms[i + 1..]) && StartsFrom(ms, i) == StartsFrom(ms, i + 1) && Exchanges(ms[i..]) == Exchanges(ms[i + 1..])
    ensures Calls(ms[i]) != [] ==>
      && i + 1 < |ms| && IsExchange(ms[i], ms[i + 1]) && WellPaired(ms[i + 2..])
      && StartsFrom(ms, i) == [i] + StartsFrom(ms, i + 2)
      && Exchanges(ms[i..]) == [Exchange(ms[i], ms[i + 1])] + Exchanges(ms[i + 2..])
  {
    hide CallsIn, ResultsIn, DistinctIDs, CallKeys, ResultKeys;
    var rest := ms[i..];
    assert rest[1..] == ms[i + 1..] && rest[0] == ms[i];
    if Calls(ms[i]) == [] {
      assert Exchanges(rest[1..]) == Exchanges(ms[i + 1..]);
    } else {
      assert rest[1] == ms[i + 1] && rest[2..] == ms[i + 2..];
    }
  }
}
