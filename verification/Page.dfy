/** One bounded page of session IDs, selected with a max-heap of the smallest candidates, and
    the listing of a store page by page (runtime/sessions/store.go:42-92,
    runtime/sessions/memory.go:127-153). */
module Page {
  import opened Order
  import Sorting
  import opened Sets

  predicate Le(a: string, b: string)
  {
    !Less(b, a)
  }

  lemma OrderLaws()
    ensures forall a: string :: !Less(a, a)
    ensures forall a: string, b: string :: Less(a, b) || Less(b, a) || a == b
    ensures forall a: string, b: string, c: string :: Less(a, b) && Less(b, c) ==> Less(a, c)
  {
    forall a: string ensures !Less(a, a) { Irreflexive(a); }
    forall a: string, b: string ensures Less(a, b) || Less(b, a) || a == b { Total(a, b); }
    forall a: string, b: string, c: string | Less(a, b) && Less(b, c) ensures Less(a, c) { Transitive(a, b, c); }
  }

  // ---- the heap ----

  function Parent(k: int): int
  {
    (k - 1) / 2
  }

  predicate Under(s: seq<string>, k: nat)
    requires 0 < k < |s|
  {
    Le(s[k], s[Parent(k)])
  }

  /** The children of `hole` are not above element `top`. */
  ghost predicate ChildrenUnder(s: seq<string>, hole: nat, top: nat)
    requires top < |s|
  {
    (2 * hole + 1 < |s| ==> Le(s[2 * hole + 1], s[top])) && (2 * hole + 2 < |s| ==> Le(s[2 * hole + 2], s[top]))
  }

  /** No element is above its parent, except possibly element `hole` and its children. */
  ghost predicate HeapBut(s: seq<string>, hole: int)
  {
    forall k :: 0 < k < |s| && k != hole && Parent(k) != hole ==> Under(s, k)
  }

  ghost predicate Heap(s: seq<string>)
  {
    forall k :: 0 < k < |s| ==> Under(s, k)
  }

  /** The root of a heap is its greatest element. */
  lemma {:induction false} RootIsGreatest(s: seq<string>, k: nat)
    requires Heap(s) && k < |s|
    ensures Le(s[k], s[0])
  {
    OrderLaws();
    hide Less;
    if k > 0 {
      assert Under(s, k);
      RootIsGreatest(s, Parent(k));
    }
  }

  function Swap(s: seq<string>, i: nat, j: nat): (r: seq<string>)
    requires i < |s| && j < |s|
    ensures |r| == |s| && multiset(r) == multiset(s)
  {
    SwapKeeps(s, i, j);
    s[i := s[j]][j := s[i]]
  }

  lemma SwapKeeps(s: seq<string>, i: nat, j: nat)
    requires i < |s| && j < |s|
    ensures multiset(s[i := s[j]][j := s[i]]) == multiset(s)
  {
  }

  /** What hangs under `hole` is not above the element over it. */
  ghost predicate Bridged(s: seq<string>, hole: nat)
  {
    0 < hole < |s| ==> ChildrenUnder(s, hole, Parent(hole))
  }

  /** With the hole filled, a heap. */
  lemma Filled(s: seq<string>, hole: nat)
    requires hole < |s| && HeapBut(s, hole) && ChildrenUnder(s, hole, hole) && (hole > 0 ==> Under(s, hole))
    ensures Heap(s)
  {
    hide Less;
    forall k | 0 < k < |s| ensures Under(s, k) {
      if Parent(k) == hole {
        assert k == 2 * hole + 1 || k == 2 * hole + 2;
      }
    }
  }

  class MaxIDHeap {
    var items: seq<string>

    constructor ()
      ensures items == []
    {
      items := [];
    }

    /** heap.Push: append, then move up. */
    method Push(id: string)
      requires Heap(items)
      modifies this
      ensures Heap(items) && multiset(items) == multiset(old(items)) + multiset{id}
    {
      Appended(items, id);
      items := items + [id];
      Up(|items| - 1);
    }

    method Up(from: nat)
      requires from < |items| && HeapBut(items, from) && Bridged(items, from) && ChildrenUnder(items, from, from)
      modifies this
      ensures Heap(items) && multiset(items) == multiset(old(items))
    {
      hide Less, HeapBut, Heap, ChildrenUnder, Bridged, Swap;
      var j := from;
      while true
        invariant 0 <= j < |items| && multiset(items) == multiset(old(items))
        invariant HeapBut(items, j) && Bridged(items, j) && ChildrenUnder(items, j, j)
        decreases j
      {
        if j == 0 {
          Filled(items, j);
          break;
        }
        var i := (j - 1) / 2;
        if !Less(items[i], items[j]) {
          Filled(items, j);
          break;
        }
        UpStep(items, i, j);
        items := Swap(items, i, j);
        j := i;
      }
    }

    /** heap.Fix at the root: move down. */
    method FixRoot()
      requires items != [] && HeapBut(items, 0)
      modifies this
      ensures Heap(items) && multiset(items) == multiset(old(items))
    {
      hide Less, HeapBut, Heap, Bridged, Swap;
      var i := 0;
      BridgedRoot(items);
      while true
        invariant 0 <= i < |items| && |items| == |old(items)| && multiset(items) == multiset(old(items))
        invariant HeapBut(items, i) && Bridged(items, i) && (i > 0 ==> Under(items, i))
        decreases |items| - i
      {
        var j := 2 * i + 1;
        if j >= |items| {
          Filled(items, i);
          break;
        }
        if j + 1 < |items| && Less(items[j], items[j + 1]) {
          j := j + 1;
        }
        GreaterChild(items, i, j);
        if !Less(items[i], items[j]) {
          NotBelow(items, i, j);
          Filled(items, i);
          break;
        }
        DownStep(items, i, j);
        items := Swap(items, i, j);
        i := j;
      }
    }
  }

  lemma Appended(s: seq<string>, id: string)
    requires Heap(s)
    ensures var r := s + [id]; HeapBut(r, |s|) && Bridged(r, |s|) && ChildrenUnder(r, |s|, |s|)
  {
    hide Less;
    var r := s + [id];
    forall k | 0 < k < |r| && k != |s| ensures Under(r, k) {
      assert Under(s, k);
    }
  }

  lemma BridgedRoot(s: seq<string>)
    ensures Bridged(s, 0)
  {
  }

  lemma GreaterChild(s: seq<string>, i: nat, j: nat)
    requires j < |s| && (j == 2 * i + 1 || j == 2 * i + 2)
    requires j == 2 * i + 1 ==> !(j + 1 < |s| && Less(s[j], s[j + 1]))
    requires j == 2 * i + 2 ==> Less(s[j - 1], s[j])
    ensures ChildrenUnder(s, i, j)
  {
    OrderLaws();
    hide Less;
  }

  lemma NotBelow(s: seq<string>, i: nat, j: nat)
    requires i < |s| && j < |s| && ChildrenUnder(s, i, j) && !Less(s[i], s[j])
    ensures ChildrenUnder(s, i, i)
  {
    OrderLaws();
    hide Less;
  }

  lemma UpStep(s: seq<string>, i: nat, j: nat)
    requires 0 < j < |s| && i == Parent(j) && Less(s[i], s[j]) && HeapBut(s, j) && Bridged(s, j) && ChildrenUnder(s, j, j)
    ensures var r := Swap(s, i, j); HeapBut(r, i) && Bridged(r, i) && ChildrenUnder(r, i, i)
  {
    OrderLaws();
    hide Less;
    var r := Swap(s, i, j);
    forall k | 0 < k < |r| && k != i && Parent(k) != i ensures Under(r, k) {
      if Parent(k) == j {
        assert k == 2 * j + 1 || k == 2 * j + 2;
      } else {
        assert Under(s, k);
      }
    }
    Sibling(s, r, i, j);
  }

  lemma Sibling(s: seq<string>, r: seq<string>, i: nat, j: nat)
    requires 0 < j < |s| && i == Parent(j) && Less(s[i], s[j]) && HeapBut(s, j) && r == Swap(s, i, j)
    ensures Bridged(r, i) && ChildrenUnder(r, i, i)
  {
    OrderLaws();
    hide Less;
    var other := if j == 2 * i + 1 then 2 * i + 2 else 2 * i + 1;
    assert j == 2 * i + 1 || j == 2 * i + 2;
    assert other < |s| ==> Parent(other) == i && Under(s, other);
    if i > 0 {
      assert Under(s, i);
    }
  }

  lemma DownStep(s: seq<string>, i: nat, j: nat)
    requires i < |s| && j < |s| && (j == 2 * i + 1 || j == 2 * i + 2) && Less(s[i], s[j])
    requires HeapBut(s, i) && Bridged(s, i) && ChildrenUnder(s, i, j)
    ensures var r := Swap(s, i, j); HeapBut(r, j) && Bridged(r, j) && Under(r, j)
  {
    OrderLaws();
    hide Less;
    var r := Swap(s, i, j);
    forall k | 0 < k < |r| && k != j && Parent(k) != j ensures Under(r, k) {
      if Parent(k) == i {
        assert k == 2 * i + 1 || k == 2 * i + 2;
      } else if k == i {
        assert Bridged(s, i);
      } else {
        assert Under(s, k);
      }
    }
    forall k | (k == 2 * j + 1 || k == 2 * j + 2) && k < |s| ensures Le(r[k], r[i]) {
      assert Parent(k) == j;
      assert Under(s, k);
    }
  }

  // ---- selecting the smallest candidates ----

  /** `kept` are the smallest of `all`, at most `capacity` of them. */
  ghost predicate Least(all: set<string>, kept: set<string>, capacity: nat)
  {
    && kept <= all && |kept| <= capacity && (|kept| < capacity ==> kept == all)
    && forall x, y :: x in all - kept && y in kept ==> Less(y, x)
  }

  /** The heap holds exactly these. */
  ghost predicate HoldsSet(items: seq<string>, kept: set<string>)
  {
    Heap(items) && multiset(items) == multiset(kept)
  }

  lemma HeapSize(items: seq<string>, kept: set<string>)
    requires multiset(items) == multiset(kept)
    ensures |items| == |kept| && forall x :: x in items <==> x in kept
  {
    assert |multiset(items)| == |items| && |multiset(kept)| == |kept|;
    forall x ensures x in items <==> x in kept {
      assert x in multiset(items) <==> x in multiset(kept);
    }
  }

  lemma RootOfSet(items: seq<string>, kept: set<string>)
    requires HoldsSet(items, kept) && items != []
    ensures items[0] in kept && forall x :: x in kept ==> Le(x, items[0])
  {
    HeapSize(items, kept);
    forall x | x in kept ensures Le(x, items[0]) {
      var k :| 0 <= k < |items| && items[k] == x;
      RootIsGreatest(items, k);
    }
  }

  function Candidate(all: set<string>, id: string, after: string): set<string>
  {
    if Less(after, id) then all + {id} else all
  }

  /** selectPageID: one more candidate, and the heap still holds the smallest ones. */
  method SelectPageID(h: MaxIDHeap, id: string, after: string, capacity: nat, ghost all: set<string>, ghost kept: set<string>) returns (ghost kept': set<string>)
    requires capacity >= 1 && id !in all && Least(all, kept, capacity) && HoldsSet(h.items, kept)
    modifies h
    ensures Least(Candidate(all, id, after), kept', capacity) && HoldsSet(h.items, kept')
  {
    hide Less, Heap;
    OrderLaws();
    HeapSize(h.items, kept);
    kept' := kept;
    if !Less(after, id) {
      return;
    }
    if |h.items| < capacity {
      h.Push(id);
      kept' := kept + {id};
      return;
    }
    RootOfSet(h.items, kept);
    var root := h.items[0];
    if !Less(id, root) {
      LeastPasses(all, kept, id, root, capacity);
      return;
    }
    ReplaceRoot(h.items, id);
    kept' := kept - {root} + {id};
    LeastReplaces(all, kept, id, root, capacity);
    h.items := h.items[0 := id];
    h.FixRoot();
  }

  lemma LeastPasses(all: set<string>, kept: set<string>, id: string, root: string, capacity: nat)
    requires Least(all, kept, capacity) && id !in all && |kept| == capacity && root in kept
    requires !Less(id, root) && forall x :: x in kept ==> Le(x, root)
    ensures Least(all + {id}, kept, capacity)
  {
    hide Less;
    OrderLaws();
  }

  lemma LeastReplaces(all: set<string>, kept: set<string>, id: string, root: string, capacity: nat)
    requires Least(all, kept, capacity) && id !in all && |kept| == capacity && root in kept
    requires Less(id, root) && forall x :: x in kept ==> Le(x, root)
    ensures Least(all + {id}, kept - {root} + {id}, capacity)
  {
    hide Less;
    OrderLaws();
  }

  lemma ReplaceRoot(items: seq<string>, id: string)
    requires items != [] && Heap(items)
    ensures HeapBut(items[0 := id], 0) && multiset(items[0 := id]) == multiset(items) - multiset{items[0]} + multiset{id}
  {
    hide Less;
    var r := items[0 := id];
    forall k | 0 < k < |r| && Parent(k) != 0 ensures Under(r, k) {
      assert Under(items, k);
    }
  }

  // ---- the page ----

  ghost predicate Increasing(s: seq<string>)
  {
    forall i, j :: 0 <= i < j < |s| ==> Less(s[i], s[j])
  }

  function InsertID(s: seq<string>, x: string): seq<string>
  {
    if s == [] then [x]
    else if !Less(x, s[|s| - 1]) then s + [x]
    else InsertID(s[..|s| - 1], x) + [s[|s| - 1]]
  }

  /** sort.Strings. */
  function SortIDs(s: seq<string>): seq<string>
  {
    if s == [] then [] else InsertID(SortIDs(s[..|s| - 1]), s[|s| - 1])
  }

  lemma {:induction false} InsertKeeps(s: seq<string>, x: string)
    ensures multiset(InsertID(s, x)) == multiset(s) + multiset{x}
  {
    if s != [] && Less(x, s[|s| - 1]) {
      InsertKeeps(s[..|s| - 1], x);
      assert s == s[..|s| - 1] + [s[|s| - 1]];
    }
  }

  lemma {:induction false} InsertIncreases(s: seq<string>, x: string)
    requires Increasing(s) && x !in s
    ensures Increasing(InsertID(s, x))
  {
    hide Less, Increasing;
    if s == [] || !Less(x, s[|s| - 1]) {
      AppendLast(s, x);
      assert [] + [x] == [x];
    } else {
      var front, last := s[..|s| - 1], s[|s| - 1];
      FrontIncreases(s);
      InsertIncreases(front, x);
      InsertKeeps(front, x);
      AppendGreater(InsertID(front, x), front, x, last);
    }
  }

  lemma FrontIncreases(s: seq<string>)
    requires s != [] && Increasing(s)
    ensures var front, last := s[..|s| - 1], s[|s| - 1]; Increasing(front) && forall y :: y in front ==> Less(y, last)
  {
    hide Less;
  }

  lemma AppendLast(s: seq<string>, x: string)
    requires Increasing(s) && x !in s && (s != [] ==> !Less(x, s[|s| - 1]))
    ensures Increasing(s + [x])
  {
    OrderLaws();
    hide Less;
    if s != [] {
      assert s[|s| - 1] in s;
    }
  }

  lemma AppendGreater(r: seq<string>, front: seq<string>, x: string, last: string)
    requires Increasing(r) && multiset(r) == multiset(front) + multiset{x} && Less(x, last)
    requires forall y :: y in front ==> Less(y, last)
    ensures Increasing(r + [last])
  {
    hide Less;
    forall i | 0 <= i < |r| ensures Less(r[i], last) {
      assert r[i] in multiset(r);
      assert r[i] in front || r[i] == x;
    }
  }

  lemma {:induction false} SortKeeps(s: seq<string>)
    ensures multiset(SortIDs(s)) == multiset(s)
  {
    hide InsertID, Less;
    if s != [] {
      var front, last := s[..|s| - 1], s[|s| - 1];
      SortKeeps(front);
      InsertKeeps(SortIDs(front), last);
      assert s == front + [last];
      assert multiset(s) == multiset(front) + multiset{last};
    }
  }

  lemma {:induction false} SortIncreases(s: seq<string>)
    requires forall i, j :: 0 <= i < j < |s| ==> s[i] != s[j]
    ensures Increasing(SortIDs(s))
  {
    if s != [] {
      var front, last := s[..|s| - 1], s[|s| - 1];
      SortIncreases(front);
      SortKeeps(front);
      assert last !in multiset(front);
      assert last !in multiset(SortIDs(front));
      InsertIncreases(SortIDs(front), last);
    }
  }

  /** A page is filter, sort, take: the IDs after the cursor in order, up to the limit; the
      cursor for the next page is its last ID exactly when more IDs follow. */
  ghost predicate PageOf(all: set<string>, after: string, limit: nat, ids: seq<string>, next: string)
  {
    && Increasing(ids) && |ids| <= limit
    && (forall x :: x in ids ==> x in all && Less(after, x))
    && (forall x :: x in all && Less(after, x) && x !in ids ==> |ids| == limit && forall y :: y in ids ==> Less(y, x))
    && (next == "" <==> forall x :: x in all && Less(after, x) ==> x in ids)
    && (next != "" ==> ids != [] && next == ids[|ids| - 1])
  }

  lemma DistinctItems(items: seq<string>, kept: set<string>)
    requires multiset(items) == multiset(kept)
    ensures forall i, j :: 0 <= i < j < |items| ==> items[i] != items[j]
  {
    forall i, j | 0 <= i < j < |items| ensures items[i] != items[j] {
      if items[i] == items[j] {
        Sorting.Twice(items, i, j);
      }
    }
  }

  /** completeIDPage. */
  method CompleteIDPage(items: seq<string>, limit: nat, ghost all: set<string>, ghost after: string, ghost above: set<string>, ghost kept: set<string>)
    returns (ids: seq<string>, next: string)
    requires limit >= 1 && multiset(items) == multiset(kept) && Least(above, kept, limit + 1)
    requires "" !in all && forall x :: x in above <==> x in all && Less(after, x)
    ensures PageOf(all, after, limit, ids, next)
  {
    hide Less;
    OrderLaws();
    DistinctItems(items, kept);
    SortKeeps(items);
    SortIncreases(items);
    var values := SortIDs(items);
    HeapSize(values, kept);
    var hasMore := |values| > limit;
    if !hasMore {
      return values, "";
    }
    ids := values[..limit];
    next := ids[limit - 1];
    assert values == ids + [values[limit]];
    assert ids[limit - 1] in values && values[limit] in values;
    TakenPage(values, limit, all, after, above, kept);
  }

  lemma TakenPage(values: seq<string>, limit: nat, all: set<string>, after: string, above: set<string>, kept: set<string>)
    requires limit >= 1 && |values| == limit + 1 && Increasing(values) && Least(above, kept, limit + 1)
    requires (forall x :: x in values <==> x in kept) && "" !in all && forall x :: x in above <==> x in all && Less(after, x)
    ensures PageOf(all, after, limit, values[..limit], values[limit - 1])
  {
    hide Less;
    OrderLaws();
    var ids, more := values[..limit], values[limit];
    assert values == ids + [more];
    assert more in values && ids[limit - 1] in values;
    forall x | x in above && x !in ids ensures forall y :: y in ids ==> Less(y, x) {
      forall y | y in ids ensures Less(y, x) {
        var i :| 0 <= i < limit && ids[i] == y;
        assert values[i] == y && y in values;
      }
    }
    assert more !in ids;
  }

  ghost function Elements(s: seq<string>): set<string>
  {
    set x | x in s
  }

  ghost predicate Distinct(s: seq<string>)
  {
    forall i, j :: 0 <= i < j < |s| ==> s[i] != s[j]
  }

  /** ListIDsPage: the page does not depend on the order in which the IDs are visited. */
  method ListIDsPage(order: seq<string>, after: string, limit: nat) returns (ids: seq<string>, next: string)
    requires limit >= 1 && "" !in Elements(order) && Distinct(order)
    ensures PageOf(Elements(order), after, limit, ids, next)
  {
    hide Less, Least, Heap;
    var h := new MaxIDHeap();
    ghost var above: set<string>, kept: set<string> := {}, {};
    EmptyPage(limit);
    for i := 0 to |order|
      invariant fresh(h) && HoldsSet(h.items, kept) && Least(above, kept, limit + 1)
      invariant forall x :: x in above <==> x in order[..i] && Less(after, x)
    {
      assert order[..i + 1] == order[..i] + [order[i]];
      assert order[i] !in order[..i];
      kept := SelectPageID(h, order[i], after, limit + 1, above, kept);
      above := Candidate(above, order[i], after);
    }
    assert order[..|order|] == order;
    ids, next := CompleteIDPage(h.items, limit, Elements(order), after, above, kept);
  }

  lemma EmptyPage(limit: nat)
    ensures HoldsSet([], {}) && Least({}, {}, limit + 1)
  {
  }

  // ---- following the cursors ----

  ghost function Later(all: set<string>, after: string): set<string>
  {
    set x | x in all && Less(after, x)
  }

  /** Following the cursors over a fixed store lists every ID exactly once, in order, and comes
      to an end; each page may visit the IDs in an order of its own. */
  method ListAll(all: set<string>, orders: nat -> seq<string>, limit: nat) returns (listed: seq<string>)
    requires limit >= 1 && "" !in all
    requires forall n :: Elements(orders(n)) == all && Distinct(orders(n))
    ensures Increasing(listed) && forall x :: x in listed <==> x in all
  {
    hide Less, PageOf;
    listed := [];
    var after := "";
    var n := 0;
    AllLater(all);
    while true
      invariant n >= 0 && Increasing(listed) && forall x :: x in listed <==> x in all && x !in Later(all, after)
      decreases |Later(all, after)|
    {
      var ids, next := ListIDsPage(orders(n), after, limit);
      NextPage(all, after, limit, ids, next, listed);
      listed := listed + ids;
      if next == "" {
        break;
      }
      after := next;
      n := n + 1;
    }
  }

  lemma AllLater(all: set<string>)
    requires "" !in all
    ensures Later(all, "") == all
  {
    forall x | x in all ensures Less("", x) {
      assert x != "";
    }
  }

  lemma NextPage(all: set<string>, after: string, limit: nat, ids: seq<string>, next: string, listed: seq<string>)
    requires limit >= 1 && PageOf(all, after, limit, ids, next) && Increasing(listed)
    requires forall x :: x in listed <==> x in all && x !in Later(all, after)
    ensures Increasing(listed + ids)
    ensures next == "" ==> forall x :: x in listed + ids <==> x in all
    ensures next != "" ==> (forall x :: x in listed + ids <==> x in all && x !in Later(all, next)) && |Later(all, next)| < |Later(all, after)|
  {
    hide Less;
    OrderLaws();
    forall i, j | 0 <= i < |listed| && 0 <= j < |ids| ensures Less(listed[i], ids[j]) {
      assert listed[i] in listed && ids[j] in ids;
      assert listed[i] !in Later(all, after);
    }
    if next != "" {
      UpToNext(all, after, limit, ids, next);
    }
  }

  lemma UpToNext(all: set<string>, after: string, limit: nat, ids: seq<string>, next: string)
    requires limit >= 1 && PageOf(all, after, limit, ids, next) && next != ""
    ensures forall x :: x in all && Less(after, x) ==> (x in ids <==> !Less(next, x))
    ensures Later(all, next) < Later(all, after) && |Later(all, next)| < |Later(all, after)|
  {
    hide Less;
    OrderLaws();
    assert next in ids;
    forall x | x in ids ensures !Less(next, x) {
      var i :| 0 <= i < |ids| && ids[i] == x;
    }
    assert next in Later(all, after) && next !in Later(all, next);
    Fewer(Later(all, next), Later(all, after), next);
  }
}
