/** A stable sort by rank, as sort.SliceStable gives it. */
module Sorting {

  predicate Sorted<T>(s: seq<T>, rank: T -> int)
  {
    forall i, j :: 0 <= i < j < |s| ==> rank(s[i]) <= rank(s[j])
  }

  /** After the last element that does not rank above it. */
  function Insert<T>(s: seq<T>, x: T, rank: T -> int): seq<T>
  {
    if s == [] then [x]
    else if rank(s[|s| - 1]) <= rank(x) then s + [x]
    else Insert(s[..|s| - 1], x, rank) + [s[|s| - 1]]
  }

  function SortStable<T>(s: seq<T>, rank: T -> int): seq<T>
  {
    if s == [] then [] else Insert(SortStable(s[..|s| - 1], rank), s[|s| - 1], rank)
  }

  lemma {:induction false} InsertKeeps<T>(s: seq<T>, x: T, rank: T -> int)
    ensures multiset(Insert(s, x, rank)) == multiset(s) + multiset{x}
  {
    if s != [] && rank(s[|s| - 1]) > rank(x) {
      InsertKeeps(s[..|s| - 1], x, rank);
      assert s == s[..|s| - 1] + [s[|s| - 1]];
    }
  }

  lemma {:induction false} InsertSorts<T>(s: seq<T>, x: T, rank: T -> int)
    requires Sorted(s, rank)
    ensures Sorted(Insert(s, x, rank), rank)
  {
    if s != [] && rank(s[|s| - 1]) > rank(x) {
      var front, last := s[..|s| - 1], s[|s| - 1];
      InsertSorts(front, x, rank);
      InsertKeeps(front, x, rank);
      AppendSorted(Insert(front, x, rank), front, x, last, rank);
    }
  }

  lemma AppendSorted<T>(r: seq<T>, front: seq<T>, x: T, last: T, rank: T -> int)
    requires Sorted(r, rank) && multiset(r) == multiset(front) + multiset{x}
    requires rank(x) <= rank(last) && forall i :: 0 <= i < |front| ==> rank(front[i]) <= rank(last)
    ensures Sorted(r + [last], rank)
  {
    forall i | 0 <= i < |r| ensures rank(r[i]) <= rank(last) {
      assert r[i] in multiset(r);
      assert r[i] in front || r[i] == x;
    }
  }

  /** Sorted, and the same elements. */
  lemma {:induction false} SortSorts<T>(s: seq<T>, rank: T -> int)
    ensures Sorted(SortStable(s, rank), rank)
    ensures multiset(SortStable(s, rank)) == multiset(s)
    ensures |SortStable(s, rank)| == |s|
  {
    if s != [] {
      SortSorts(s[..|s| - 1], rank);
      InsertSorts(SortStable(s[..|s| - 1], rank), s[|s| - 1], rank);
      InsertKeeps(SortStable(s[..|s| - 1], rank), s[|s| - 1], rank);
      assert s == s[..|s| - 1] + [s[|s| - 1]];
    }
    assert |multiset(SortStable(s, rank))| == |SortStable(s, rank)| && |multiset(s)| == |s|;
  }

  /** The same elements, without repetition. */
  lemma SameElements<T>(s: seq<T>, t: seq<T>)
    requires multiset(s) == multiset(t) && forall i, j :: 0 <= i < j < |s| ==> s[i] != s[j]
    ensures forall i, j :: 0 <= i < j < |t| ==> t[i] != t[j]
    ensures forall x :: x in t <==> x in s
  {
    forall x ensures x in t <==> x in s {
      assert x in multiset(s) <==> x in multiset(t);
    }
    forall i, j | 0 <= i < j < |t| ensures t[i] != t[j] {
      if t[i] == t[j] {
        Twice(t, i, j);
        OnceEach(s, t[i]);
      }
    }
  }

  lemma Twice<T>(t: seq<T>, i: nat, j: nat)
    requires i < j < |t| && t[i] == t[j]
    ensures multiset(t)[t[i]] >= 2
  {
    assert t == t[..j] + t[j..];
    assert t[..j][i] == t[i] && t[j..][0] == t[j];
    assert multiset(t) == multiset(t[..j]) + multiset(t[j..]);
    assert t[i] in multiset(t[..j]) && t[j] in multiset(t[j..]);
  }

  lemma {:induction false} OnceEach<T>(s: seq<T>, x: T)
    requires forall i, j :: 0 <= i < j < |s| ==> s[i] != s[j]
    ensures multiset(s)[x] <= 1
  {
    if s != [] {
      var front, last := s[..|s| - 1], s[|s| - 1];
      OnceEach(front, x);
      assert s == front + [last];
      if x == last {
        assert x !in front;
        assert x !in multiset(front);
      }
    }
  }
}
