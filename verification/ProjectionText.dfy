/** Sharing the text budget of a projected request: fair allowances for the newest results,
    the bodies under them, and why the budget is never exceeded
    (runtime/loops/context_tools.go:209-320). */
module ProjectionText {
  import opened Utf8
  import opened Wrappers
  import opened Frame
  import opened Marker
  import opened Truncate
  import opened Sorting
  import opened Shortening

  const RESULT_RESERVE: nat := 32

  // ---- sums over partly set allowances ----

  const UNSET: int := -1

  /** The allowances set so far. */
  function Granted(a: seq<int>): (r: nat)
  {
    if a == [] then 0 else Granted(a[..|a| - 1]) + if a[|a| - 1] < 0 then 0 else a[|a| - 1]
  }

  lemma {:induction false} GrantOne(a: seq<int>, i: nat, v: nat)
    requires i < |a| && a[i] == UNSET
    ensures Granted(a[i := v]) == Granted(a) + v
  {
    var last := |a| - 1;
    if i == last {
      assert a[i := v][..last] == a[..last];
    } else {
      assert a[i := v][..last] == a[..last][i := v];
      GrantOne(a[..last], i, v);
    }
  }

  lemma {:induction false} NothingGranted(a: seq<int>)
    requires forall i :: 0 <= i < |a| ==> a[i] == UNSET
    ensures Granted(a) == 0
  {
    if a != [] {
      NothingGranted(a[..|a| - 1]);
    }
  }

  // ---- fair allowances ----

  ghost predicate DistinctIn(s: seq<nat>, n: nat)
  {
    (forall i :: 0 <= i < |s| ==> s[i] < n) && (forall i, j :: 0 <= i < j < |s| ==> s[i] != s[j])
  }

  /** Result `i` is not shown in full. */
  predicate Cut(sizes: seq<nat>, a: seq<int>, i: nat)
    requires i < |sizes| == |a|
  {
    0 <= a[i] < sizes[i]
  }

  /** While sharing: the open results, those still unset among the chosen, can each get
      `level`, and nobody settled so far got more than that. */
  ghost predicate Sharing(sizes: seq<nat>, chosen: seq<nat>, open: seq<nat>, a: seq<int>, remaining: nat, budget: nat, level: nat)
  {
    && |a| == |sizes| && DistinctIn(open, |a|)
    && Granted(a) + remaining == budget
    && level >= RESULT_RESERVE && remaining >= |open| * level
    && (forall i :: 0 <= i < |a| ==> (a[i] == UNSET <==> i !in chosen || i in open))
    && (forall i :: 0 <= i < |a| && a[i] != UNSET ==> a[i] == sizes[i] <= level)
    && (forall k :: 0 <= k < |open| ==> open[k] in chosen)
  }

  /** The shares handed out: nothing beyond the budget; every chosen result gets all it needs
      or at least the reserve; a result that is cut leaves nothing unspent and nobody gets
      more than one byte beyond its share, and bytes over go to the later ones. */
  ghost predicate Fair(sizes: seq<nat>, chosen: seq<nat>, a: seq<int>, budget: nat)
  {
    && |a| == |sizes|
    && Granted(a) <= budget
    && (forall i :: 0 <= i < |a| ==> (a[i] == UNSET <==> i !in chosen))
    && (forall i :: 0 <= i < |a| && i in chosen ==> a[i] == sizes[i] || RESULT_RESERVE <= a[i] <= sizes[i])
    && (forall i :: 0 <= i < |a| && Cut(sizes, a, i) ==> Granted(a) == budget)
    && (forall i, j :: 0 <= i < |a| && 0 <= j < |a| && Cut(sizes, a, i) ==> a[j] <= a[i] + 1)
    && LaterNoLess(sizes, chosen, a)
  }

  /** Of two results that are cut, the later one in the list of the chosen gets the byte over. */
  ghost predicate LaterNoLess(sizes: seq<nat>, chosen: seq<nat>, a: seq<int>)
    requires |a| == |sizes|
  {
    forall p, q :: 0 <= p < q < |chosen| && chosen[p] < |a| && chosen[q] < |a| && Cut(sizes, a, chosen[p]) && Cut(sizes, a, chosen[q]) ==>
      a[chosen[p]] <= a[chosen[q]]
  }

  // ---- the order of the chosen ----

  ghost predicate Before(chosen: seq<nat>, x: nat, y: nat)
  {
    exists p, q :: 0 <= p < q < |chosen| && chosen[p] == x && chosen[q] == y
  }

  /** What is open stands in the order of the chosen. */
  ghost predicate InSameOrder(chosen: seq<nat>, open: seq<nat>)
  {
    forall i, j :: 0 <= i < j < |open| ==> Before(chosen, open[i], open[j])
  }

  lemma AllInOrder(chosen: seq<nat>)
    ensures InSameOrder(chosen, chosen)
  {
  }

  lemma FewerInOrder(chosen: seq<nat>, front: seq<nat>, x: nat, rest: seq<nat>)
    requires InSameOrder(chosen, front + [x] + rest)
    ensures InSameOrder(chosen, front + rest)
  {
    hide Before;
    var all, fewer := front + [x] + rest, front + rest;
    forall i, j | 0 <= i < j < |fewer| ensures Before(chosen, fewer[i], fewer[j]) {
      var i', j' := if i < |front| then i else i + 1, if j < |front| then j else j + 1;
      assert all[i'] == fewer[i] && all[j'] == fewer[j];
    }
  }

  /** Without repetition the order of two elements is settled. */
  lemma OrderIsSettled(chosen: seq<nat>, open: seq<nat>, p: nat, q: nat, i: nat, j: nat)
    requires p < q < |chosen| && i < |open| && j < |open| && chosen[p] == open[i] && chosen[q] == open[j]
    requires InSameOrder(chosen, open) && forall k, m :: 0 <= k < m < |chosen| ==> chosen[k] != chosen[m]
    ensures i < j
  {
    if j < i {
      assert false;
    }
  }

  /** fairProjectedTextAllowances. */
  method FairAllowances(sizes: seq<nat>, chosen: seq<nat>, budget: nat) returns (a: seq<int>)
    requires DistinctIn(chosen, |sizes|) && budget >= |chosen| * RESULT_RESERVE
    ensures Fair(sizes, chosen, a, budget)
  {
    hide Granted, DistinctIn;
    a := seq(|sizes|, i => UNSET);
    NothingGranted(a);
    var active := chosen;
    var remaining := budget;
    ghost var level := RESULT_RESERVE;
    AllInOrder(chosen);
    hide InSameOrder, LaterNoLess;
    while active != []
      invariant InSameOrder(chosen, active)
      invariant remaining >= 0 && level >= 0 && Sharing(sizes, chosen, active, a, remaining, budget, level)
      decreases |active|
    {
      hide Sharing;
      ShareGrows(sizes, chosen, active, a, remaining, budget, level);
      var share := remaining / |active|;
      if share < RESULT_RESERVE {
        share := RESULT_RESERVE;
      }
      level := share;
      var next, a', remaining' := SettleSmall(sizes, chosen, active, a, remaining, budget, share);
      if |next| == |active| {
        assert a' == a && remaining' == remaining && next == active;
        a := SplitEvenly(sizes, chosen, next, a', remaining', budget, share);
        return;
      }
      a, remaining, active := a', remaining', next;
    }
    AllSettled(sizes, chosen, a, remaining, budget, level);
  }

  lemma ShareGrows(sizes: seq<nat>, chosen: seq<nat>, active: seq<nat>, a: seq<int>, remaining: nat, budget: nat, level: nat)
    requires active != [] && Sharing(sizes, chosen, active, a, remaining, budget, level)
    ensures remaining / |active| >= level >= RESULT_RESERVE
    ensures Sharing(sizes, chosen, active, a, remaining, budget, remaining / |active|)
  {
    hide Granted, DistinctIn;
    var n := |active|;
    Quotient(remaining, n, level);
  }

  lemma Quotient(x: nat, n: nat, level: nat)
    requires n > 0 && x >= n * level
    ensures x / n >= level && x >= n * (x / n) && x < n * (x / n + 1)
  {
    var q := x / n;
    assert x == q * n + x % n;
    assert n * (q + 1) == q * n + n;
    if q < level {
      Times(q + 1, level, n);
    }
  }

  lemma AllSettled(sizes: seq<nat>, chosen: seq<nat>, a: seq<int>, remaining: nat, budget: nat, level: nat)
    requires Sharing(sizes, chosen, [], a, remaining, budget, level)
    ensures Fair(sizes, chosen, a, budget)
  {
    hide Granted, DistinctIn;
  }

  /** One round: results no larger than the share get their size. */
  method SettleSmall(sizes: seq<nat>, chosen: seq<nat>, active: seq<nat>, a: seq<int>, remaining: nat, budget: nat, share: nat)
    returns (next: seq<nat>, a': seq<int>, remaining': nat)
    requires Sharing(sizes, chosen, active, a, remaining, budget, share) && InSameOrder(chosen, active)
    ensures Sharing(sizes, chosen, next, a', remaining', budget, share) && InSameOrder(chosen, next)
    ensures |next| <= |active| && (forall i :: 0 <= i < |next| ==> next[i] < |sizes| && sizes[next[i]] > share)
    ensures |next| == |active| ==> next == active && a' == a && remaining' == remaining
  {
    hide Granted, Sharing, InSameOrder;
    next, a', remaining' := [], a, remaining;
    assert next + active[0..] == active;
    for k := 0 to |active|
      invariant remaining' >= 0 && Sharing(sizes, chosen, next + active[k..], a', remaining', budget, share)
      invariant InSameOrder(chosen, next + active[k..])
      invariant |next| <= k && (forall i :: 0 <= i < |next| ==> next[i] < |sizes| && sizes[next[i]] > share)
      invariant |next| == k ==> next == active[..k] && a' == a && remaining' == remaining
    {
      SharingFacts(sizes, chosen, next + active[k..], a', remaining', budget, share, |next|);
      Moves(next, active, k);
      if sizes[active[k]] <= share {
        FewerInOrder(chosen, next, active[k], active[k + 1..]);
        SettleOne(sizes, chosen, next, active[k..], a', remaining', budget, share);
        remaining' := remaining' - sizes[active[k]];
        a' := a'[active[k] := sizes[active[k]]];
      } else {
        next := next + [active[k]];
      }
    }
    assert next + active[|active|..] == next;
    assert active[..|active|] == active;
  }

  lemma Moves(next: seq<nat>, active: seq<nat>, k: nat)
    requires k < |active|
    ensures (next + active[k..])[|next|] == active[k] && active[k..][0] == active[k] && active[k..][1..] == active[k + 1..]
    ensures (next + [active[k]]) + active[k + 1..] == next + active[k..]
    ensures active[..k + 1] == active[..k] + [active[k]]
  {
  }

  lemma SharingFacts(sizes: seq<nat>, chosen: seq<nat>, open: seq<nat>, a: seq<int>, remaining: nat, budget: nat, level: nat, k: nat)
    requires Sharing(sizes, chosen, open, a, remaining, budget, level) && k < |open|
    ensures |a| == |sizes| && open[k] < |a| && a[open[k]] == UNSET && remaining >= |open| * level >= level
  {
    hide Granted;
    assert |open| * level >= level;
  }

  lemma SettleOne(sizes: seq<nat>, chosen: seq<nat>, next: seq<nat>, rest: seq<nat>, a: seq<int>, remaining: nat, budget: nat, share: nat)
    requires rest != [] && Sharing(sizes, chosen, next + rest, a, remaining, budget, share)
    requires rest[0] < |sizes| == |a| && sizes[rest[0]] <= share <= remaining
    ensures Sharing(sizes, chosen, next + rest[1..], a[rest[0] := sizes[rest[0]]], remaining - sizes[rest[0]], budget, share)
  {
    hide Granted;
    var open, open', at := next + rest, next + rest[1..], rest[0];
    assert open[|next|] == at;
    assert a[at] == UNSET;
    GrantOne(a, at, sizes[at]);
    RemoveAt(open, |next|);
    assert open' == open[..|next|] + open[|next| + 1..];
    OneLess(|open'|, share);
  }

  lemma OneLess(n: nat, share: nat)
    ensures (n + 1) * share == n * share + share
  {
  }

  lemma RemoveAt(s: seq<nat>, i: nat)
    requires i < |s| && forall j, k :: 0 <= j < k < |s| ==> s[j] != s[k]
    ensures var t := s[..i] + s[i + 1..];
      (forall x: nat :: x in t <==> x in s && x != s[i]) && (forall j, k :: 0 <= j < k < |t| ==> t[j] != t[k])
  {
    var t := s[..i] + s[i + 1..];
    forall x: nat ensures x in t <==> x in s && x != s[i] {
      if x in s && x != s[i] {
        var j :| 0 <= j < |s| && s[j] == x;
        assert x == if j < i then t[j] else t[j - 1];
      }
      if x in t {
        var j :| 0 <= j < |t| && t[j] == x;
        assert x == if j < i then s[j] else s[j + 1];
      }
    }
  }

  // ---- the last round: nobody fits, the rest is split evenly ----

  function Each(n: int, share: nat): int
  {
    n * share
  }

  /** While splitting: the results before `k` have their share, and each got `share` or one
      more, the later ones no less than the earlier ones. */
  ghost predicate Splitting(sizes: seq<nat>, chosen: seq<nat>, open: seq<nat>, k: nat, a: seq<int>, remaining: nat, budget: nat, share: nat)
  {
    && |a| == |sizes| && k <= |open| && DistinctIn(open, |a|)
    && Granted(a) + remaining == budget && share >= RESULT_RESERVE
    && Each(|open| - k, share) <= remaining <= Each(|open| - k, share + 1)
    && (forall i :: 0 <= i < |open| ==> open[i] in chosen && sizes[open[i]] > share)
    && (forall i :: 0 <= i < |a| ==> (a[i] == UNSET <==> i !in chosen || i in open[k..]))
    && (forall i :: 0 <= i < |a| && a[i] != UNSET ==> (a[i] == sizes[i] <= share) || i in open[..k])
    && SharedSoFar(open, k, a, remaining, share)
  }

  /** Each of those before `k` got `share` or one more, and once one got more, all that is left
      goes out in larger shares. */
  ghost predicate SharedSoFar(open: seq<nat>, k: nat, a: seq<int>, remaining: nat, share: nat)
    requires k <= |open| && forall i :: 0 <= i < |open| ==> open[i] < |a|
  {
    && (forall i :: 0 <= i < k ==> share <= a[open[i]] <= share + 1)
    && (forall i :: 0 <= i < k && a[open[i]] == share + 1 ==> remaining == Each(|open| - k, share + 1))
    && (forall i, j :: 0 <= i < j < k ==> a[open[i]] <= a[open[j]])
  }

  lemma SharedNext(open: seq<nat>, k: nat, a: seq<int>, left: nat, share: nat, v: nat)
    requires k < |open| && DistinctIn(open, |a|) && SharedSoFar(open, k, a, left, share)
    requires share <= v <= share + 1 && v <= left
    requires left == Each(|open| - k, share + 1) ==> v == share + 1
    requires v == share + 1 ==> left - v == Each(|open| - (k + 1), share + 1)
    ensures SharedSoFar(open, k + 1, a[open[k] := v], left - v, share)
  {
    hide Each;
    var next := a[open[k] := v];
    assert forall i :: 0 <= i < k ==> next[open[i]] == a[open[i]];
  }

  method SplitEvenly(sizes: seq<nat>, chosen: seq<nat>, open: seq<nat>, a: seq<int>, remaining: nat, budget: nat, share: nat) returns (a': seq<int>)
    requires open != [] && Sharing(sizes, chosen, open, a, remaining, budget, share)
    requires InSameOrder(chosen, open) && DistinctIn(chosen, |sizes|)
    requires share == remaining / |open| && forall i :: 0 <= i < |open| ==> open[i] < |sizes| && sizes[open[i]] > share
    ensures Fair(sizes, chosen, a', budget)
  {
    hide Granted, DistinctIn, Sharing, Splitting;
    a' := a;
    var left := remaining;
    SplitStart(sizes, chosen, open, a, remaining, budget, share);
    for k := 0 to |open|
      invariant left >= 0 && Splitting(sizes, chosen, open, k, a', left, budget, share)
    {
      SplitStep(sizes, chosen, open, k, a', left, budget, share);
      var allowance := left / (|open| - k);
      if allowance < RESULT_RESERVE {
        allowance := RESULT_RESERVE;
      }
      a' := a'[open[k] := allowance];
      left := left - allowance;
    }
    SplitEnd(sizes, chosen, open, a', left, budget, share);
  }

  lemma SplitStart(sizes: seq<nat>, chosen: seq<nat>, open: seq<nat>, a: seq<int>, remaining: nat, budget: nat, share: nat)
    requires open != [] && Sharing(sizes, chosen, open, a, remaining, budget, share)
    requires share == remaining / |open| && forall i :: 0 <= i < |open| ==> open[i] < |sizes| && sizes[open[i]] > share
    ensures Splitting(sizes, chosen, open, 0, a, remaining, budget, share)
  {
    hide Granted, DistinctIn;
    Quotient(remaining, |open|, share);
    assert open[0..] == open;
  }

  lemma SplitStep(sizes: seq<nat>, chosen: seq<nat>, open: seq<nat>, k: nat, a: seq<int>, left: nat, budget: nat, share: nat)
    requires k < |open| && Splitting(sizes, chosen, open, k, a, left, budget, share)
    ensures |a| == |sizes| && open[k] < |a|
    ensures var v := left / (|open| - k);
      share <= v <= share + 1 && v >= RESULT_RESERVE && v <= left
      && Splitting(sizes, chosen, open, k + 1, a[open[k] := v], left - v, budget, share)
  {
    SplitArithmetic(left, |open| - k, share);
    NextShare(sizes, chosen, open, k, a, left, budget, share, left / (|open| - k));
  }

  lemma NextShare(sizes: seq<nat>, chosen: seq<nat>, open: seq<nat>, k: nat, a: seq<int>, left: nat, budget: nat, share: nat, v: nat)
    requires k < |open| && Splitting(sizes, chosen, open, k, a, left, budget, share)
    requires share <= v <= share + 1 && v <= left
    requires Each(|open| - (k + 1), share) <= left - v <= Each(|open| - (k + 1), share + 1)
    requires left == Each(|open| - k, share + 1) ==> v == share + 1
    requires v == share + 1 ==> left - v == Each(|open| - (k + 1), share + 1)
    ensures |a| == |sizes| && open[k] < |a| && Splitting(sizes, chosen, open, k + 1, a[open[k] := v], left - v, budget, share)
  {
    hide Granted, Each, SharedSoFar;
    SharedNext(open, k, a, left, share, v);
    var at := open[k];
    assert open[k..][0] == at;
    assert a[at] == UNSET;
    GrantOne(a, at, v);
    assert open[..k + 1] == open[..k] + [at];
    assert open[k..] == [at] + open[k + 1..];
    assert forall i :: 0 <= i < k ==> open[i] != at;
    assert at !in open[k + 1..];
  }

  lemma SplitArithmetic(left: nat, n: nat, share: nat)
    requires n > 0 && n * share <= left <= n * (share + 1)
    ensures left / n == if left == n * (share + 1) then share + 1 else share
    ensures left / n <= left && (n - 1) * share <= left - left / n <= (n - 1) * (share + 1)
    ensures left / n == share + 1 ==> left - left / n == (n - 1) * (share + 1)
  {
    Expand(n, share);
    SharedOut(left, n, share, left - n * share);
  }

  lemma SharedOut(left: nat, n: nat, share: nat, over: nat)
    requires n > 0 && left == n * share + over && over <= n
    ensures left / n == if over == n then share + 1 else share
  {
    Quotient(left, n, share);
    var v := left / n;
    Expand(n, share);
    Expand(n, share + 1);
    if v >= share + 2 {
      Times(share + 2, v, n);
      assert false;
    }
    if v == share + 1 {
      assert n * (share + 1) == n * share + n;
    } else {
      assert n * (v + 1) == n * share + n;
    }
  }

  lemma Expand(n: int, x: int)
    ensures n * (x + 1) == n * x + n && (n - 1) * x == n * x - x && (n - 1) * (x + 1) == n * x - x + n - 1
  {
  }

  lemma SplitEnd(sizes: seq<nat>, chosen: seq<nat>, open: seq<nat>, a: seq<int>, left: nat, budget: nat, share: nat)
    requires Splitting(sizes, chosen, open, |open|, a, left, budget, share)
    requires InSameOrder(chosen, open) && DistinctIn(chosen, |sizes|)
    ensures Fair(sizes, chosen, a, budget)
  {
    hide Granted, DistinctIn, InSameOrder, LaterNoLess;
    LaterGetMore(sizes, chosen, open, a, left, budget, share);
    assert open[|open|..] == [] && open[..|open|] == open;
    assert left == 0;
    forall i | 0 <= i < |a| && i in chosen ensures a[i] == sizes[i] || RESULT_RESERVE <= a[i] <= sizes[i] {
    }
    forall i, j | 0 <= i < |a| && 0 <= j < |a| && Cut(sizes, a, i) ensures a[j] <= a[i] + 1 {
    }
  }

  lemma LaterGetMore(sizes: seq<nat>, chosen: seq<nat>, open: seq<nat>, a: seq<int>, left: nat, budget: nat, share: nat)
    requires Splitting(sizes, chosen, open, |open|, a, left, budget, share)
    requires InSameOrder(chosen, open) && DistinctIn(chosen, |sizes|)
    ensures LaterNoLess(sizes, chosen, a)
  {
    hide Granted, InSameOrder;
    assert open[|open|..] == [] && open[..|open|] == open;
    forall p, q | 0 <= p < q < |chosen| && chosen[p] < |a| && chosen[q] < |a| && Cut(sizes, a, chosen[p]) && Cut(sizes, a, chosen[q])
      ensures a[chosen[p]] <= a[chosen[q]]
    {
      var i :| 0 <= i < |open| && open[i] == chosen[p];
      var j :| 0 <= j < |open| && open[j] == chosen[q];
      OrderIsSettled(chosen, open, p, q, i, j);
    }
  }

  lemma Times(a: nat, b: nat, n: nat)
    requires a <= b
    ensures n * a <= n * b
  {
    assert n * (b - a) >= 0;
  }

  // ---- what fair allowances show ----

  /** The full sizes of the results that have an allowance. */
  function Wanted(sizes: seq<nat>, a: seq<int>): nat
    requires |sizes| == |a|
  {
    if a == [] then 0
    else Wanted(sizes[..|a| - 1], a[..|a| - 1]) + if a[|a| - 1] < 0 then 0 else sizes[|a| - 1]
  }

  lemma {:induction false} CutWantsMore(sizes: seq<nat>, a: seq<int>, i: nat)
    requires |sizes| == |a| && forall k :: 0 <= k < |a| && a[k] >= 0 ==> a[k] <= sizes[k]
    ensures Granted(a) <= Wanted(sizes, a)
    ensures i < |a| && Cut(sizes, a, i) ==> Granted(a) < Wanted(sizes, a)
  {
    if a != [] {
      CutWantsMore(sizes[..|a| - 1], a[..|a| - 1], i);
    }
  }

  /** What fits the budget as a whole is shown as a whole. */
  lemma FairShowsAll(sizes: seq<nat>, chosen: seq<nat>, a: seq<int>, budget: nat)
    requires Fair(sizes, chosen, a, budget) && Wanted(sizes, a) <= budget
    ensures forall i :: 0 <= i < |a| && i in chosen ==> a[i] == sizes[i]
  {
    hide Granted, Wanted;
    forall i | 0 <= i < |a| && i in chosen ensures a[i] == sizes[i] {
      CutWantsMore(sizes, a, i);
      var cut := Cut(sizes, a, i);
    }
  }

  // ---- all results of a request ----

  datatype Omissions = Omissions(latest: bool, older: bool)

  /** forceProjectedOmission. */
  predicate Forced(plan: Omissions, group: nat)
  {
    (plan.latest && group == 0) || (plan.older && group > 0)
  }

  function TotalText(bodies: seq<seq<Block>>): nat
  {
    if bodies == [] then 0 else TotalText(bodies[..|bodies| - 1]) + TextTotal(bodies[|bodies| - 1])
  }

  /** What the results from `i` on may still claim. */
  function Claimed(a: seq<int>, i: nat): (r: nat)
    decreases |a| - i
  {
    if i >= |a| then 0 else (if a[i] < 0 then RESULT_RESERVE else a[i]) + Claimed(a, i + 1)
  }

  lemma {:induction false} ClaimedUnset(a: seq<int>, i: nat)
    requires i <= |a| && forall k :: i <= k < |a| ==> a[k] == UNSET
    ensures Claimed(a, i) == (|a| - i) * RESULT_RESERVE
    decreases |a| - i
  {
    if i < |a| {
      ClaimedUnset(a, i + 1);
    }
  }

  /** What position `i` claims and what is claimed behind it. */
  lemma ClaimedStep(a: seq<int>, latest: nat, i: nat)
    requires i < |a| && latest <= |a| && forall k :: 0 <= k < |a| ==> (a[k] == UNSET <==> k >= latest) && a[k] >= UNSET
    ensures Claimed(a, i) == (if a[i] < 0 then RESULT_RESERVE else a[i]) + Claimed(a, i + 1)
    ensures a[i] < 0 ==> Claimed(a, i + 1) == (|a| - i - 1) * RESULT_RESERVE
  {
    if a[i] < 0 {
      ClaimedUnset(a, i + 1);
    }
  }

  function SetCount(a: seq<int>): (r: nat)
    ensures r <= |a|
  {
    if a == [] then 0 else SetCount(a[..|a| - 1]) + if a[|a| - 1] < 0 then 0 else 1
  }

  lemma {:induction false} ClaimedAll(a: seq<int>, i: nat)
    requires i <= |a|
    ensures Claimed(a, i) + Granted(a[..i]) + (i - SetCount(a[..i])) * RESULT_RESERVE == Granted(a) + (|a| - SetCount(a)) * RESULT_RESERVE
    decreases |a| - i
  {
    if i < |a| {
      ClaimedAll(a, i + 1);
      assert a[..i + 1][..i] == a[..i];
    } else {
      assert a[..i] == a;
    }
  }

  lemma {:induction false} SetCountIs(a: seq<int>, n: nat)
    requires n <= |a| && forall i :: 0 <= i < |a| ==> (a[i] == UNSET <==> i >= n) && a[i] >= UNSET
    ensures SetCount(a) == n
  {
    if a != [] {
      if n == |a| {
        SetCountIs(a[..|a| - 1], n - 1);
      } else {
        SetCountIs(a[..|a| - 1], n);
      }
    }
  }

  datatype Allocation =
    | Shared(bodies: seq<seq<Block>>)
    | Unfair
    | OverBudget

  ghost predicate NewestFirst(groups: seq<nat>)
  {
    forall i, j :: 0 <= i < j < |groups| ==> groups[i] <= groups[j]
  }

  /** What becomes of one result: the fixed text, or its body under its allowance. */
  ghost predicate BodyOf(sha: Bytes -> Digest, plan: Omissions, group: nat, prepared: seq<Block>, allowance: nat, body: seq<Block>)
  {
    && AllValid(body)
    && if Forced(plan, group) then body == [Text(OMITTED_BODY)]
       else body == Shorten(sha, prepared, allowance) && OnlyTexts(prepared, body) && TextTotal(body) <= allowance
  }

  /** The allowance of each result that is not omitted: a fair share for the newest group, and
      for an older one all that is left beside the reserve of those after it. */
  ghost predicate Allowed(plan: Omissions, groups: seq<nat>, fair: seq<int>, budget: nat, allowances: seq<nat>, bodies: seq<seq<Block>>)
    requires |groups| == |fair| == |allowances| == |bodies|
  {
    forall i :: 0 <= i < |groups| && !Forced(plan, groups[i]) ==>
      if groups[i] == 0 then allowances[i] == fair[i] else allowances[i] == Remainder(groups, budget, bodies, i)
  }

  function Remainder(groups: seq<nat>, budget: nat, bodies: seq<seq<Block>>, i: nat): (r: nat)
    requires |groups| == |bodies| && i < |groups|
    ensures r >= RESULT_RESERVE
  {
    LeftAfter(budget - TotalText(bodies[..i]), |groups| - i - 1)
  }

  /** All of what is left but a reserve for each of the others, and never less than one. */
  function LeftAfter(left: int, others: nat): (r: nat)
    ensures r >= RESULT_RESERVE
  {
    if left - others * RESULT_RESERVE < RESULT_RESERVE then RESULT_RESERVE else left - others * RESULT_RESERVE
  }

  /** Fair shares of what the newest group may use: the results shown, in the order of their
      calls, share the budget beside the reserve of all others. */
  ghost predicate FairForLatest(plan: Omissions, groups: seq<nat>, callIndex: nat -> int, prepared: seq<seq<Block>>, budget: nat, fair: seq<int>)
    requires |groups| == |prepared| && budget >= |groups| * RESULT_RESERVE
  {
    exists latest: seq<nat> :: IsLatest(plan, groups, latest) && FairOver(callIndex, prepared, budget, latest, fair)
  }

  ghost predicate FairOver(callIndex: nat -> int, prepared: seq<seq<Block>>, budget: nat, latest: seq<nat>, fair: seq<int>)
    requires budget >= |prepared| * RESULT_RESERVE && |latest| <= |prepared|
  {
    && |fair| == |prepared|
    && if latest == [] then forall i :: 0 <= i < |fair| ==> fair[i] == UNSET
       else Fair(SizesOf(prepared), SortStable(latest, callIndex), fair, budget - (|prepared| - |latest|) * RESULT_RESERVE)
  }

  /** A later call gets no less than an earlier one when both are cut. */
  lemma LaterCallNoLess(plan: Omissions, groups: seq<nat>, callIndex: nat -> int, prepared: seq<seq<Block>>, budget: nat, fair: seq<int>, i: nat, j: nat)
    requires |groups| == |prepared| == |fair| && budget >= |groups| * RESULT_RESERVE
    requires FairForLatest(plan, groups, callIndex, prepared, budget, fair)
    requires i < |groups| && j < |groups| && callIndex(i) < callIndex(j)
    requires Cut(SizesOf(prepared), fair, i) && Cut(SizesOf(prepared), fair, j)
    ensures fair[i] <= fair[j]
  {
    hide Granted, SizesOf, SortStable;
    var latest: seq<nat> :| IsLatest(plan, groups, latest) && FairOver(callIndex, prepared, budget, latest, fair);
    var ordered := SortStable<nat>(latest, callIndex);
    OrderedLatest(latest, callIndex, |groups|);
    SortSorts<nat>(latest, callIndex);
    assert i in ordered && j in ordered;
    var p :| 0 <= p < |ordered| && ordered[p] == i;
    var q :| 0 <= q < |ordered| && ordered[q] == j;
    assert p < q;
  }

  /** The results of the newest group that are shown, in the order of the list. */
  ghost predicate IsLatest(plan: Omissions, groups: seq<nat>, latest: seq<nat>)
  {
    && |latest| <= |groups| && (forall k :: 0 <= k < |latest| ==> latest[k] == k)
    && (forall i :: 0 <= i < |groups| ==> (groups[i] == 0 && !Forced(plan, groups[i]) <==> i < |latest|))
  }

  function SizesOf(prepared: seq<seq<Block>>): (r: seq<nat>)
    ensures |r| == |prepared|
  {
    seq(|prepared|, i requires 0 <= i < |prepared| => TextTotal(prepared[i]))
  }

  /** How many results belong to the newest group, when they are to be shown. */
  method CountLatest(plan: Omissions, groups: seq<nat>) returns (latest: seq<nat>)
    requires NewestFirst(groups)
    ensures IsLatest(plan, groups, latest)
  {
    latest := [];
    for i := 0 to |groups|
      invariant |latest| <= i && forall k :: 0 <= k < |latest| ==> latest[k] == k
      invariant forall j :: 0 <= j < i ==> (groups[j] == 0 && !Forced(plan, groups[j]) <==> j < |latest|)
      invariant |latest| < i ==> groups[i - 1] > 0 || Forced(plan, 0)
    {
      if groups[i] == 0 && !Forced(plan, groups[i]) {
        latest := latest + [i];
      }
    }
  }

  /** The allocation of the text budget over the results, newest group first: once every result
      has its reserve it succeeds, and the bodies together stay within the budget. */
  method AllocateText(sha: Bytes -> Digest, plan: Omissions, groups: seq<nat>, callIndex: nat -> int, prepared: seq<seq<Block>>, budget: nat)
    returns (r: Allocation, ghost fair: seq<int>, ghost given: seq<nat>)
    requires |groups| == |prepared| && NewestFirst(groups)
    requires forall i :: 0 <= i < |prepared| ==> AllValid(prepared[i])
    requires budget >= |groups| * RESULT_RESERVE
    ensures r.Shared? && |r.bodies| == |groups| && TotalText(r.bodies) <= budget
    ensures FairForLatest(plan, groups, callIndex, prepared, budget, fair)
    ensures |given| == |groups| && Allowed(plan, groups, fair, budget, given, r.bodies)
    ensures forall i :: 0 <= i < |groups| ==> BodyOf(sha, plan, groups[i], prepared[i], given[i], r.bodies[i])
  {
    hide TextTotal, AllValid, Allowed, BodyOf, FairOver, Forced;
    var latest := CountLatest(plan, groups);
    var enough, allowances := LatestAllowances(callIndex, prepared, budget, latest);
    fair, given := allowances, [];
    if !enough {
      assert false;
      return Unfair, fair, given;
    }
    r, given := ShareOut(sha, plan, groups, prepared, allowances, |latest|, budget);
  }

  /** The allowances of the newest results; the others' are not set. */
  method LatestAllowances(callIndex: nat -> int, prepared: seq<seq<Block>>, budget: nat, latest: seq<nat>) returns (enough: bool, allowances: seq<int>)
    requires budget >= |prepared| * RESULT_RESERVE
    requires |latest| <= |prepared| && forall k :: 0 <= k < |latest| ==> latest[k] == k
    ensures enough && FairOver(callIndex, prepared, budget, latest, allowances)
    ensures |allowances| == |prepared| && Claimed(allowances, 0) <= budget
    ensures forall i :: 0 <= i < |prepared| ==> (allowances[i] == UNSET <==> i >= |latest|) && allowances[i] >= UNSET
    ensures forall i :: 0 <= i < |latest| ==> allowances[i] >= TextTotal(prepared[i]) || allowances[i] >= RESULT_RESERVE
  {
    hide Fair, TextTotal, Granted, DistinctIn, SortStable;
    var n := |prepared|;
    enough, allowances := true, seq(n, i => UNSET);
    if |latest| == 0 {
      ClaimedUnset(allowances, 0);
      return;
    }
    var latestBudget := budget - (n - |latest|) * RESULT_RESERVE;
    if latestBudget < |latest| * RESULT_RESERVE {
      assert false;
      return false, allowances;
    }
    var sizes := SizesOf(prepared);
    var ordered := SortStable(latest, callIndex);
    OrderedLatest(latest, callIndex, n);
    allowances := FairAllowances(sizes, ordered, latestBudget);
    FairClaims(sizes, ordered, allowances, latestBudget);
  }

  lemma OrderedLatest(latest: seq<nat>, callIndex: nat -> int, n: nat)
    requires |latest| <= n && forall k :: 0 <= k < |latest| ==> latest[k] == k
    ensures var ordered := SortStable(latest, callIndex);
      |ordered| == |latest| && DistinctIn(ordered, n) && forall i: nat :: i in ordered <==> i < |latest|
  {
    var ordered := SortStable(latest, callIndex);
    SortSorts(latest, callIndex);
    SameElements(latest, ordered);
    forall i: nat ensures i in ordered <==> i < |latest| {
      if i < |latest| { assert latest[i] == i; }
    }
    forall i | 0 <= i < |ordered| ensures ordered[i] < n {
      assert ordered[i] in ordered;
    }
  }

  lemma FairClaims(sizes: seq<nat>, chosen: seq<nat>, a: seq<int>, budget: nat)
    requires Fair(sizes, chosen, a, budget) && |chosen| <= |sizes| && forall i: nat :: i in chosen <==> i < |chosen|
    ensures |a| == |sizes|
    ensures forall i :: 0 <= i < |a| ==> (a[i] == UNSET <==> i >= |chosen|) && a[i] >= UNSET
    ensures forall i :: 0 <= i < |chosen| ==> a[i] >= sizes[i] || a[i] >= RESULT_RESERVE
    ensures Claimed(a, 0) <= budget + (|a| - |chosen|) * RESULT_RESERVE
  {
    hide Granted;
    SetCountIs(a, |chosen|);
    ClaimedAll(a, 0);
    assert a[..0] == [];
    NothingGranted([]);
  }

  method ShareOut(sha: Bytes -> Digest, plan: Omissions, groups: seq<nat>, prepared: seq<seq<Block>>, allowances: seq<int>, latest: nat, budget: nat)
    returns (r: Allocation, ghost given: seq<nat>)
    requires |groups| == |prepared| == |allowances| && NewestFirst(groups) && latest <= |groups|
    requires forall i :: 0 <= i < |prepared| ==> AllValid(prepared[i])
    requires forall i :: 0 <= i < |groups| ==> (groups[i] == 0 && !Forced(plan, groups[i]) <==> i < latest)
    requires forall i :: 0 <= i < |groups| ==> (allowances[i] == UNSET <==> i >= latest) && allowances[i] >= UNSET
    requires forall i :: 0 <= i < latest ==> allowances[i] >= TextTotal(prepared[i]) || allowances[i] >= RESULT_RESERVE
    requires Claimed(allowances, 0) <= budget
    ensures r.Shared? && |r.bodies| == |groups| && TotalText(r.bodies) <= budget
    ensures |given| == |groups| && Allowed(plan, groups, allowances, budget, given, r.bodies)
    ensures forall i :: 0 <= i < |groups| ==> BodyOf(sha, plan, groups[i], prepared[i], given[i], r.bodies[i])
  {
    hide TextTotal, AllValid, Shorten;
    var bodies: seq<seq<Block>> := [];
    given := [];
    var textRemaining := budget;
    var remainingResults := |groups|;
    for i := 0 to |groups|
      invariant |bodies| == |given| == i && remainingResults == |groups| - i
      invariant textRemaining >= Claimed(allowances, i) && TotalText(bodies) + textRemaining == budget
      invariant BodiesSoFar(sha, plan, groups, prepared, given, bodies)
      invariant AllowedSoFar(plan, groups, allowances, budget, given, bodies)
    {
      hide BodiesSoFar, AllowedSoFar, LeftAfter, Claimed, TotalText;
      ClaimedStep(allowances, latest, i);
      remainingResults := remainingResults - 1;
      var fits, body, allowance := ShowOne(sha, plan, groups[i], prepared[i], allowances[i], textRemaining, remainingResults);
      if !fits {
        assert false;
        return OverBudget, given;
      }
      AppendBody(bodies, body);
      AllowedNext(plan, groups, allowances, budget, given, bodies, allowance, body);
      BodiesNext(sha, plan, groups, prepared, given, bodies, allowance, body);
      bodies := bodies + [body];
      given := given + [allowance];
      textRemaining := textRemaining - TextTotal(body);
    }
    AllowedInTheEnd(plan, groups, allowances, budget, given, bodies);
    r := Shared(bodies);
  }

  /** One result: the fixed text, or its body under the allowance; `fits` is false for each of the
      three errors of the code, none of which occurs. */
  method ShowOne(sha: Bytes -> Digest, plan: Omissions, group: nat, prepared: seq<Block>, fair: int, textRemaining: nat, remainingResults: nat)
    returns (fits: bool, body: seq<Block>, allowance: nat)
    requires AllValid(prepared) && fair >= UNSET
    requires textRemaining >= (if fair < 0 then RESULT_RESERVE else fair) + if fair < 0 then remainingResults * RESULT_RESERVE else 0
    requires fair >= 0 ==> fair >= TextTotal(prepared) || fair >= RESULT_RESERVE
    requires Forced(plan, group) ==> fair < 0
    ensures fits && BodyOf(sha, plan, group, prepared, allowance, body)
    ensures !Forced(plan, group) ==> allowance == if fair < 0 then LeftAfter(textRemaining, remainingResults) else fair
    ensures TextTotal(body) <= if fair < 0 then textRemaining - remainingResults * RESULT_RESERVE else fair
  {
    hide TextTotal, AllValid, Shorten, BodyOf;
    if Forced(plan, group) {
      FixedBody(sha, plan, group, prepared);
      fits, body, allowance := |OMITTED_BODY| <= textRemaining, [Text(OMITTED_BODY)], 0;
      return;
    }
    allowance := LeftAfter(textRemaining, remainingResults);
    if fair >= 0 {
      allowance := fair;
    }
    assert |OMITTED_BODY| == 30;
    var compacted := CompactText(sha, prepared, allowance);
    if compacted.CannotFit? {
      assert false;
      return false, [], allowance;
    }
    ShownBody(sha, plan, group, prepared, allowance, compacted.children);
    fits, body := compacted.used <= textRemaining, compacted.children;
  }

  /** The allowances given to the first results. */
  ghost predicate AllowedSoFar(plan: Omissions, groups: seq<nat>, fair: seq<int>, budget: nat, given: seq<nat>, bodies: seq<seq<Block>>)
    requires |groups| == |fair| && |given| == |bodies| <= |groups|
  {
    forall i :: 0 <= i < |given| && !Forced(plan, groups[i]) ==>
      if groups[i] == 0 then given[i] == fair[i] else given[i] == LeftAfter(budget - TotalText(bodies[..i]), |groups| - i - 1)
  }

  ghost predicate BodiesSoFar(sha: Bytes -> Digest, plan: Omissions, groups: seq<nat>, prepared: seq<seq<Block>>, given: seq<nat>, bodies: seq<seq<Block>>)
  {
    && |given| == |bodies| <= |groups| == |prepared|
    && forall k :: 0 <= k < |bodies| ==> BodyOf(sha, plan, groups[k], prepared[k], given[k], bodies[k])
  }

  lemma BodiesNext(sha: Bytes -> Digest, plan: Omissions, groups: seq<nat>, prepared: seq<seq<Block>>, given: seq<nat>, bodies: seq<seq<Block>>,
                   allowance: nat, body: seq<Block>)
    requires BodiesSoFar(sha, plan, groups, prepared, given, bodies) && |bodies| < |groups|
    requires BodyOf(sha, plan, groups[|bodies|], prepared[|bodies|], allowance, body)
    ensures BodiesSoFar(sha, plan, groups, prepared, given + [allowance], bodies + [body])
  {
    hide BodyOf;
  }

  lemma AllowedNext(plan: Omissions, groups: seq<nat>, fair: seq<int>, budget: nat, given: seq<nat>, bodies: seq<seq<Block>>, allowance: nat, body: seq<Block>)
    requires |groups| == |fair| && |given| == |bodies| < |groups| && AllowedSoFar(plan, groups, fair, budget, given, bodies)
    requires var i := |given|; !Forced(plan, groups[i]) ==>
      if groups[i] == 0 then allowance == fair[i] else allowance == LeftAfter(budget - TotalText(bodies), |groups| - i - 1)
    ensures AllowedSoFar(plan, groups, fair, budget, given + [allowance], bodies + [body])
  {
    hide LeftAfter, TotalText;
    var more := bodies + [body];
    assert forall i :: 0 <= i < |given| ==> more[..i] == bodies[..i];
    assert more[..|given|] == bodies;
  }

  lemma AllowedInTheEnd(plan: Omissions, groups: seq<nat>, fair: seq<int>, budget: nat, given: seq<nat>, bodies: seq<seq<Block>>)
    requires |groups| == |fair| == |given| == |bodies| && AllowedSoFar(plan, groups, fair, budget, given, bodies)
    ensures Allowed(plan, groups, fair, budget, given, bodies)
  {
    hide LeftAfter, TotalText;
  }

  lemma AppendBody(bodies: seq<seq<Block>>, body: seq<Block>)
    ensures TotalText(bodies + [body]) == TotalText(bodies) + TextTotal(body)
  {
    assert (bodies + [body])[..|bodies|] == bodies;
  }

  lemma FixedBody(sha: Bytes -> Digest, plan: Omissions, group: nat, prepared: seq<Block>)
    requires Forced(plan, group)
    ensures BodyOf(sha, plan, group, prepared, 0, [Text(OMITTED_BODY)])
    ensures TextTotal([Text(OMITTED_BODY)]) == |OMITTED_BODY| == 30
  {
    hide Ascii, Valid, TextTotal;
    AsciiValid(OMITTED_BODY);
    OneTextTotal(OMITTED_BODY);
    assert |OMITTED_BODY| == 30;
  }

  lemma ShownBody(sha: Bytes -> Digest, plan: Omissions, group: nat, prepared: seq<Block>, allowance: nat, body: seq<Block>)
    requires !Forced(plan, group) && OnlyTexts(prepared, body) && AllValid(body)
    requires body == Shorten(sha, prepared, allowance) && TextTotal(body) <= allowance
    ensures BodyOf(sha, plan, group, prepared, allowance, body)
  {
    hide Shorten, TextTotal, AllValid;
  }

  /** Nothing is withheld: a result of an older exchange is only shortened when what it leaves is
      no more than a reserve for each result after it, or when it has no more than a reserve
      itself. */
  lemma OlderCutOnlyWhenFull(sha: Bytes -> Digest, plan: Omissions, groups: seq<nat>, fair: seq<int>, budget: nat,
                             prepared: seq<seq<Block>>, given: seq<nat>, bodies: seq<seq<Block>>, i: nat)
    requires |groups| == |fair| == |prepared| == |given| == |bodies| && i < |groups|
    requires Allowed(plan, groups, fair, budget, given, bodies) && groups[i] > 0 && !plan.older
    requires BodyOf(sha, plan, groups[i], prepared[i], given[i], bodies[i])
    ensures bodies[i] == prepared[i] || given[i] == 32 || TotalText(bodies[..i]) + given[i] + 32 * (|groups| - i - 1) == budget
    ensures given[i] >= 32 && (given[i] == 32 ==> TotalText(bodies[..i]) + 32 * (|groups| - i) >= budget)
  {
    hide TextTotal, TotalText, AllValid, Replaced, Preview;
  }

  /** What is to be left out is left out, and nothing else is. */
  lemma OmittedAsPlanned(sha: Bytes -> Digest, plan: Omissions, group: nat, prepared: seq<Block>, allowance: nat, body: seq<Block>)
    requires BodyOf(sha, plan, group, prepared, allowance, body)
    ensures if group == 0 then (plan.latest ==> body == [Text(OMITTED_BODY)]) && (!plan.latest ==> OnlyTexts(prepared, body))
            else (plan.older ==> body == [Text(OMITTED_BODY)]) && (!plan.older ==> OnlyTexts(prepared, body))
  {
    hide TextTotal, AllValid, Shorten;
  }
}
