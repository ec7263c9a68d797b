/** The canonical form of a JSON value: members in the order of their keys, at every level
    (internal/jsonvalue/canon.go:11-73, internal/jsonvalue/jsonvalue.go:19-52). */
module JsonCanon {
  import opened Utf8
  import opened Wrappers
  import opened Wire
  import opened Json
  import opened JsonRoundTrip

  // ---- the order of keys ----

  predicate KeyLess(a: Bytes, b: Bytes)
  {
    if b == [] then false
    else if a == [] then true
    else a[0] < b[0] || (a[0] == b[0] && KeyLess(a[1..], b[1..]))
  }

  lemma {:induction false} KeyIrreflexive(a: Bytes)
    ensures !KeyLess(a, a)
  {
    if a != [] {
      KeyIrreflexive(a[1..]);
    }
  }

  lemma {:induction false} KeyTotal(a: Bytes, b: Bytes)
    ensures KeyLess(a, b) || KeyLess(b, a) || a == b
  {
    if a != [] && b != [] && a[0] == b[0] {
      KeyTotal(a[1..], b[1..]);
      assert a == [a[0]] + a[1..] && b == [b[0]] + b[1..];
    }
  }

  lemma {:induction false} KeyTransitive(a: Bytes, b: Bytes, c: Bytes)
    requires KeyLess(a, b) && KeyLess(b, c)
    ensures KeyLess(a, c)
  {
    if a != [] && a[0] == b[0] && b[0] == c[0] {
      KeyTransitive(a[1..], b[1..], c[1..]);
    }
  }

  lemma KeyLaws()
    ensures forall a: Bytes :: !KeyLess(a, a)
    ensures forall a: Bytes, b: Bytes :: KeyLess(a, b) || KeyLess(b, a) || a == b
    ensures forall a: Bytes, b: Bytes, c: Bytes :: KeyLess(a, b) && KeyLess(b, c) ==> KeyLess(a, c)
  {
    forall a: Bytes ensures !KeyLess(a, a) { KeyIrreflexive(a); }
    forall a: Bytes, b: Bytes ensures KeyLess(a, b) || KeyLess(b, a) || a == b { KeyTotal(a, b); }
    forall a: Bytes, b: Bytes, c: Bytes | KeyLess(a, b) && KeyLess(b, c) ensures KeyLess(a, c) { KeyTransitive(a, b, c); }
  }

  /** The keys agree up to `i`, where the first ends or has the smaller byte. */
  predicate FirstDifference(a: Bytes, b: Bytes, i: nat)
  {
    i <= |a| && i < |b| && a[..i] == b[..i] && (i < |a| ==> a[i] < b[i])
  }

  /** Keys are ordered by their first difference. */
  lemma {:induction false} KeyLessIsLexicographic(a: Bytes, b: Bytes)
    ensures KeyLess(a, b) <==> exists i :: FirstDifference(a, b, i)
  {
    if KeyLess(a, b) {
      var i := WhereLess(a, b);
    }
    forall i | FirstDifference(a, b, i) ensures KeyLess(a, b) {
      LessFrom(a, b, i);
    }
  }

  lemma {:induction false} WhereLess(a: Bytes, b: Bytes) returns (i: nat)
    requires KeyLess(a, b)
    ensures FirstDifference(a, b, i)
  {
    if a == [] || a[0] < b[0] {
      i := 0;
    } else {
      i := WhereLess(a[1..], b[1..]);
      i := i + 1;
      assert a[..i] == [a[0]] + a[1..][..i - 1] && b[..i] == [b[0]] + b[1..][..i - 1];
    }
  }

  lemma {:induction false} LessFrom(a: Bytes, b: Bytes, i: nat)
    requires FirstDifference(a, b, i)
    ensures KeyLess(a, b)
  {
    if i > 0 {
      assert a[0] == a[..i][0] == b[..i][0] == b[0];
      assert a[1..][..i - 1] == a[..i][1..] && b[1..][..i - 1] == b[..i][1..];
      LessFrom(a[1..], b[1..], i - 1);
    }
  }

  // ---- sorting members ----

  function InsertMember(ms: seq<Member>, m: Member): (r: seq<Member>)
    ensures |r| == |ms| + 1 && multiset(r) == multiset(ms) + multiset{m}
  {
    if ms == [] then [m]
    else if KeyLess(ms[0].key, m.key) then
      assert ms == [ms[0]] + ms[1..];
      [ms[0]] + InsertMember(ms[1..], m)
    else [m] + ms
  }

  function SortMembers(ms: seq<Member>): (r: seq<Member>)
    ensures |r| == |ms| && multiset(r) == multiset(ms)
  {
    if ms == [] then []
    else
      assert ms == [ms[0]] + ms[1..];
      InsertMember(SortMembers(ms[1..]), ms[0])
  }

  function Keys(ms: seq<Member>): set<Bytes>
  {
    if ms == [] then {} else {ms[0].key} + Keys(ms[1..])
  }

  predicate InKeyOrder(ms: seq<Member>)
  {
    |ms| < 2 || (KeyLess(ms[0].key, ms[1].key) && InKeyOrder(ms[1..]))
  }

  lemma {:induction false} InsertOrders(ms: seq<Member>, m: Member)
    requires InKeyOrder(ms) && m.key !in Keys(ms)
    ensures InKeyOrder(InsertMember(ms, m)) && Keys(InsertMember(ms, m)) == Keys(ms) + {m.key}
  {
    KeyLaws();
    hide KeyLess;
    if ms != [] {
      var r := InsertMember(ms, m);
      if KeyLess(ms[0].key, m.key) {
        InsertOrders(ms[1..], m);
        assert r[1..] == InsertMember(ms[1..], m);
      } else {
        assert r[1..] == ms;
      }
    } else {
      assert [m][1..] == [];
    }
  }

  /** No key twice. */
  predicate DistinctKeys(ms: seq<Member>)
  {
    ms == [] || (ms[0].key !in Keys(ms[1..]) && DistinctKeys(ms[1..]))
  }

  lemma {:induction false} SortOrders(ms: seq<Member>)
    requires DistinctKeys(ms)
    ensures InKeyOrder(SortMembers(ms)) && Keys(SortMembers(ms)) == Keys(ms)
  {
    if ms != [] {
      SortOrders(ms[1..]);
      InsertOrders(SortMembers(ms[1..]), ms[0]);
    }
  }

  /** In key order the first member is the least. */
  lemma {:induction false} FirstIsLeast(ms: seq<Member>, m: Member)
    requires InKeyOrder(ms) && m in ms && m != ms[0]
    ensures KeyLess(ms[0].key, m.key)
  {
    assert m in ms[1..];
    if m != ms[1] {
      FirstIsLeast(ms[1..], m);
      KeyTransitive(ms[0].key, ms[1].key, m.key);
    }
  }

  lemma SameFirstMember(a: seq<Member>, b: seq<Member>)
    requires InKeyOrder(a) && InKeyOrder(b) && a != [] && b != [] && a[0] in b && b[0] in a
    ensures a[0] == b[0]
  {
    hide InKeyOrder, KeyLess;
    if a[0] != b[0] {
      FirstIsLeast(a, b[0]);
      FirstIsLeast(b, a[0]);
      KeyTransitive(a[0].key, b[0].key, a[0].key);
      KeyIrreflexive(a[0].key);
    }
  }

  lemma TailMultiset(a: seq<Member>)
    requires a != []
    ensures multiset(a) == multiset{a[0]} + multiset(a[1..])
  {
    assert a == [a[0]] + a[1..];
  }

  lemma SameTails(a: seq<Member>, b: seq<Member>)
    requires a != [] && b != [] && a[0] == b[0] && multiset(a) == multiset(b)
    ensures multiset(a[1..]) == multiset(b[1..])
  {
    TailMultiset(a);
    TailMultiset(b);
    assert multiset(a[1..]) == multiset(a) - multiset{a[0]};
    assert multiset(b[1..]) == multiset(b) - multiset{b[0]};
  }

  /** Only one arrangement of the same members is in key order. */
  lemma {:induction false} OneArrangement(a: seq<Member>, b: seq<Member>)
    requires InKeyOrder(a) && InKeyOrder(b) && multiset(a) == multiset(b)
    ensures a == b
  {
    hide KeyLess;
    assert |multiset(a)| == |a| && |multiset(b)| == |b|;
    if a != [] {
      assert a[0] in multiset(b) && b[0] in multiset(a);
      SameFirstMember(a, b);
      SameTails(a, b);
      OneArrangement(a[1..], b[1..]);
      assert a == [a[0]] + a[1..] && b == [b[0]] + b[1..];
    }
  }

  // ---- the canonical form ----

  function Canon(v: Value): Value
    decreases v
  {
    match v
    case Array(items) => Array(CanonItems(items))
    case Object(members) => Object(SortMembers(CanonMembers(members)))
    case _ => v
  }

  function CanonItems(items: seq<Value>): seq<Value>
    decreases items
  {
    if items == [] then [] else [Canon(items[0])] + CanonItems(items[1..])
  }

  function CanonMembers(members: seq<Member>): seq<Member>
    decreases members
  {
    if members == [] then [] else [Member(members[0].key, Canon(members[0].value))] + CanonMembers(members[1..])
  }

  /** CanonicalValue. */
  function CanonicalText(v: Value): Bytes
  {
    Print(Canon(v))
  }

  // ---- it is as well formed and as large as the value ----

  lemma {:induction false} SeenMore(b: Budget, ms: seq<Member>, seen: set<Bytes>, x: Bytes)
    requires WellFormedMembers(b, ms, seen) && x !in Keys(ms)
    ensures WellFormedMembers(b, ms, seen + {x})
  {
    hide WellFormed, Utf8.Valid;
    if ms != [] {
      SeenMore(b, ms[1..], seen + {ms[0].key}, x);
      assert seen + {ms[0].key} + {x} == seen + {x} + {ms[0].key};
    }
  }

  lemma {:induction false} InsertWellFormed(b: Budget, ms: seq<Member>, m: Member, seen: set<Bytes>)
    requires WellFormedMembers(b, ms, seen) && m.key !in seen && m.key !in Keys(ms) && Utf8.Valid(m.key) && WellFormed(b, m.value)
    ensures WellFormedMembers(b, InsertMember(ms, m), seen)
    ensures Keys(InsertMember(ms, m)) == Keys(ms) + {m.key}
    ensures DepthMembers(InsertMember(ms, m)) == Max(Depth(m.value), DepthMembers(ms))
    ensures NodesMembers(InsertMember(ms, m)) == 1 + Nodes(m.value) + NodesMembers(ms)
  {
    hide WellFormed, Utf8.Valid, KeyLess, Depth, Nodes;
    var r := InsertMember(ms, m);
    if ms == [] {
      assert r[1..] == [];
    } else if KeyLess(ms[0].key, m.key) {
      InsertWellFormed(b, ms[1..], m, seen + {ms[0].key});
      assert r[1..] == InsertMember(ms[1..], m);
    } else {
      assert r[1..] == ms;
      SeenMore(b, ms, seen, m.key);
    }
  }

  lemma {:induction false} KeysUnseen(b: Budget, ms: seq<Member>, seen: set<Bytes>)
    requires WellFormedMembers(b, ms, seen)
    ensures Keys(ms) !! seen && DistinctKeys(ms)
  {
    hide WellFormed, Utf8.Valid;
    if ms != [] {
      KeysUnseen(b, ms[1..], seen + {ms[0].key});
    }
  }

  lemma {:induction false} SortWellFormed(b: Budget, ms: seq<Member>, seen: set<Bytes>)
    requires WellFormedMembers(b, ms, seen)
    ensures WellFormedMembers(b, SortMembers(ms), seen) && Keys(SortMembers(ms)) == Keys(ms)
    ensures DepthMembers(SortMembers(ms)) == DepthMembers(ms) && NodesMembers(SortMembers(ms)) == NodesMembers(ms)
  {
    hide WellFormed, Utf8.Valid, Depth, Nodes;
    if ms != [] {
      KeysUnseen(b, ms[1..], seen + {ms[0].key});
      FewerSeen(b, ms[1..], seen, ms[0].key);
      SortWellFormed(b, ms[1..], seen);
      InsertWellFormed(b, SortMembers(ms[1..]), ms[0], seen);
    }
  }

  lemma {:induction false} FewerSeen(b: Budget, ms: seq<Member>, seen: set<Bytes>, x: Bytes)
    requires WellFormedMembers(b, ms, seen + {x})
    ensures WellFormedMembers(b, ms, seen)
  {
    hide WellFormed, Utf8.Valid;
    if ms != [] {
      assert seen + {x} + {ms[0].key} == seen + {ms[0].key} + {x};
      FewerSeen(b, ms[1..], seen + {ms[0].key}, x);
    }
  }

  lemma {:induction false} CanonKeeps(b: Budget, v: Value)
    requires WellFormed(b, v)
    ensures WellFormed(b, Canon(v)) && Depth(Canon(v)) == Depth(v) && Nodes(Canon(v)) == Nodes(v)
    decreases v, 1
  {
    hide NumberLen, Utf8.Valid;
    match v
    case Array(items) => CanonItemsKeep(b, items);
    case Object(members) =>
      CanonMembersKeep(b, members, {});
      SortWellFormed(b, CanonMembers(members), {});
    case _ =>
  }

  lemma {:induction false} CanonItemsKeep(b: Budget, items: seq<Value>)
    requires WellFormedItems(b, items)
    ensures WellFormedItems(b, CanonItems(items)) && DepthItems(CanonItems(items)) == DepthItems(items) && NodesItems(CanonItems(items)) == NodesItems(items)
    decreases items, 0
  {
    if items != [] {
      CanonKeeps(b, items[0]);
      CanonItemsKeep(b, items[1..]);
      hide WellFormed, Depth, Nodes, Canon;
      assert CanonItems(items)[1..] == CanonItems(items[1..]);
    }
  }

  lemma {:induction false} CanonMembersKeep(b: Budget, members: seq<Member>, seen: set<Bytes>)
    requires WellFormedMembers(b, members, seen)
    ensures WellFormedMembers(b, CanonMembers(members), seen)
    ensures DepthMembers(CanonMembers(members)) == DepthMembers(members) && NodesMembers(CanonMembers(members)) == NodesMembers(members)
    decreases members, 0
  {
    if members != [] {
      CanonKeeps(b, members[0].value);
      CanonMembersKeep(b, members[1..], seen + {members[0].key});
      hide WellFormed, Depth, Nodes, Canon, Utf8.Valid;
      assert CanonMembers(members)[1..] == CanonMembers(members[1..]);
    }
  }

  // ---- what the canonical text decides ----

  /** Parsing the canonical text of a parsed value gives back that value with its members in
      order. */
  lemma CanonicalReads(b: Budget, raw: Bytes, v: Value)
    requires Parse(b, raw) == Some(v)
    ensures Parse(b, CanonicalText(v)) == Some(Canon(v))
  {
    hide Parse, Print, Canon, WellFormed, Depth, Nodes;
    ParsedReads(b, raw, v);
    CanonKeeps(b, v);
    PrintParses(b, Canon(v));
  }

  // ---- equal up to the order of members ----

  /** The same value, but for the order of the members of objects at any level. */
  ghost predicate Same(v: Value, w: Value)
    decreases v, 1
  {
    match v
    case Array(items) => w.Array? && SameItems(items, w.items)
    case Object(members) => w.Object? && SameMembers(members, w.members)
    case _ => v == w
  }

  ghost predicate SameItems(vs: seq<Value>, ws: seq<Value>)
    decreases vs, 0
  {
    |vs| == |ws| && (vs == [] || (Same(vs[0], ws[0]) && SameItems(vs[1..], ws[1..])))
  }

  /** The members can be matched one to one. */
  ghost predicate SameMembers(ms: seq<Member>, ns: seq<Member>)
    decreases ms, 0
  {
    if ms == [] then ns == []
    else exists j :: 0 <= j < |ns| && ns[j].key == ms[0].key && Same(ms[0].value, ns[j].value) && SameMembers(ms[1..], Without(ns, j))
  }

  function Without(ns: seq<Member>, j: nat): (r: seq<Member>)
    requires j < |ns|
    ensures |r| == |ns| - 1 && forall i :: 0 <= i < |r| ==> r[i] in ns
  {
    ns[..j] + ns[j + 1..]
  }

  ghost predicate WellFormedValues(b: Budget, ms: seq<Member>)
  {
    forall i :: 0 <= i < |ms| ==> WellFormed(b, ms[i].value)
  }

  lemma {:induction false} ValuesOf(b: Budget, ms: seq<Member>, seen: set<Bytes>)
    requires WellFormedMembers(b, ms, seen)
    ensures WellFormedValues(b, ms)
  {
    hide WellFormed, Utf8.Valid;
    if ms != [] {
      ValuesOf(b, ms[1..], seen + {ms[0].key});
      assert ms == [ms[0]] + ms[1..];
    }
  }

  function CanonMember(m: Member): Member
  {
    Member(m.key, Canon(m.value))
  }

  lemma {:induction false} CanonMembersAt(ms: seq<Member>, j: nat)
    requires j < |ms|
    ensures |CanonMembers(ms)| == |ms| && CanonMembers(ms)[j] == CanonMember(ms[j])
  {
    hide Canon;
    if j > 0 {
      CanonMembersAt(ms[1..], j - 1);
    } else if |ms| > 1 {
      CanonMembersAt(ms[1..], 0);
    }
  }

  lemma CanonFirst(ms: seq<Member>)
    requires ms != []
    ensures multiset(CanonMembers(ms)) == multiset{CanonMember(ms[0])} + multiset(CanonMembers(ms[1..]))
  {
    hide Canon;
  }

  lemma {:induction false} CanonWithout(ns: seq<Member>, j: nat)
    requires j < |ns|
    ensures multiset(CanonMembers(ns)) == multiset(CanonMembers(Without(ns, j))) + multiset{CanonMember(ns[j])}
    decreases j
  {
    hide CanonMembers, CanonMember;
    CanonFirst(ns);
    var rest := Without(ns, j);
    if j == 0 {
      assert rest == ns[1..];
    } else {
      CanonWithout(ns[1..], j - 1);
      assert rest[0] == ns[0] && rest[1..] == Without(ns[1..], j - 1);
      CanonFirst(rest);
    }
  }

  /** Two values are the same up to the order of members exactly when their canonical forms are
      equal. */
  lemma {:induction false} SameIsCanon(b: Budget, v: Value, w: Value)
    requires WellFormed(b, v) && WellFormed(b, w)
    ensures Same(v, w) <==> Canon(v) == Canon(w)
    decreases v, 1
  {
    hide NumberLen, Utf8.Valid;
    match v
    case Array(items) =>
      if w.Array? {
        SameItemsAreCanon(b, items, w.items);
      }
    case Object(members) =>
      if w.Object? {
        ValuesOf(b, members, {});
        ValuesOf(b, w.members, {});
        SameMembersAreCanon(b, members, w.members);
        ObjectsUpToOrder(b, members, w.members);
      }
    case _ =>
  }

  lemma {:induction false} SameItemsAreCanon(b: Budget, vs: seq<Value>, ws: seq<Value>)
    requires WellFormedItems(b, vs) && WellFormedItems(b, ws)
    ensures SameItems(vs, ws) <==> CanonItems(vs) == CanonItems(ws)
    decreases vs, 0
  {
    CanonItemsLength(vs);
    CanonItemsLength(ws);
    if vs != [] && ws != [] {
      SameIsCanon(b, vs[0], ws[0]);
      SameItemsAreCanon(b, vs[1..], ws[1..]);
      hide WellFormed, Canon, Same;
      assert CanonItems(vs)[0] == Canon(vs[0]) && CanonItems(vs)[1..] == CanonItems(vs[1..]);
      assert CanonItems(ws)[0] == Canon(ws[0]) && CanonItems(ws)[1..] == CanonItems(ws[1..]);
    }
  }

  lemma {:induction false} CanonItemsLength(items: seq<Value>)
    ensures |CanonItems(items)| == |items|
  {
    hide Canon;
    if items != [] {
      CanonItemsLength(items[1..]);
    }
  }

  lemma {:induction false} SameMembersAreCanon(b: Budget, ms: seq<Member>, ns: seq<Member>)
    requires WellFormedValues(b, ms) && WellFormedValues(b, ns)
    ensures SameMembers(ms, ns) <==> multiset(CanonMembers(ms)) == multiset(CanonMembers(ns))
    decreases ms, 0
  {
    if ms == [] {
      NoMembers(ns);
    } else {
      forall j | 0 <= j < |ns|
        ensures ns[j].key == ms[0].key && Same(ms[0].value, ns[j].value) <==> CanonMember(ms[0]) == CanonMember(ns[j])
        ensures SameMembers(ms[1..], Without(ns, j)) <==> multiset(CanonMembers(ms[1..])) == multiset(CanonMembers(Without(ns, j)))
      {
        SameIsCanon(b, ms[0].value, ns[j].value);
        RestWellFormed(b, ms, ns, j);
        SameMembersAreCanon(b, ms[1..], Without(ns, j));
      }
      MatchFirst(ms, ns);
    }
  }

  lemma NoMembers(ns: seq<Member>)
    ensures multiset(CanonMembers([])) == multiset(CanonMembers(ns)) <==> ns == []
  {
    if ns != [] {
      CanonMembersAt(ns, 0);
      assert CanonMembers(ns)[0] in multiset(CanonMembers(ns));
    }
  }

  lemma RestWellFormed(b: Budget, ms: seq<Member>, ns: seq<Member>, j: nat)
    requires WellFormedValues(b, ms) && WellFormedValues(b, ns) && ms != [] && j < |ns|
    ensures WellFormedValues(b, ms[1..]) && WellFormedValues(b, Without(ns, j))
  {
    hide WellFormed;
    var rest := Without(ns, j);
    forall i | 0 <= i < |rest| ensures WellFormed(b, rest[i].value) {
      assert rest[i] in ns;
    }
  }

  /** Equal members match when the first finds a partner and the rest match without it. */
  lemma MatchFirst(ms: seq<Member>, ns: seq<Member>)
    requires ms != []
    ensures multiset(CanonMembers(ms)) == multiset(CanonMembers(ns)) <==>
      exists j :: 0 <= j < |ns| && CanonMember(ms[0]) == CanonMember(ns[j]) && multiset(CanonMembers(ms[1..])) == multiset(CanonMembers(Without(ns, j)))
  {
    hide CanonMembers, CanonMember, Without;
    var first := CanonMember(ms[0]);
    CanonFirst(ms);
    var all, rest := multiset(CanonMembers(ns)), multiset(CanonMembers(ms[1..]));
    if multiset(CanonMembers(ms)) == all {
      var j := Partner(ns, first);
      CanonWithout(ns, j);
      Cancel(rest, multiset(CanonMembers(Without(ns, j))), first);
    }
    forall j | 0 <= j < |ns| && first == CanonMember(ns[j]) && rest == multiset(CanonMembers(Without(ns, j)))
      ensures multiset(CanonMembers(ms)) == all
    {
      CanonWithout(ns, j);
    }
  }

  lemma Partner(ns: seq<Member>, m: Member) returns (j: nat)
    requires m in multiset(CanonMembers(ns))
    ensures j < |ns| && CanonMember(ns[j]) == m
  {
    hide CanonMember;
    CanonLength(ns);
    j :| j < |ns| && CanonMembers(ns)[j] == m;
    CanonMembersAt(ns, j);
  }

  lemma Cancel(a: multiset<Member>, b: multiset<Member>, m: Member)
    requires multiset{m} + a == b + multiset{m}
    ensures a == b
  {
    assert a == (multiset{m} + a) - multiset{m} && b == (b + multiset{m}) - multiset{m};
  }

  lemma {:induction false} CanonLength(ms: seq<Member>)
    ensures |CanonMembers(ms)| == |ms|
  {
    hide Canon;
    if ms != [] {
      CanonLength(ms[1..]);
    }
  }

  /** Two parsed values have the same canonical text exactly when they are the same up to the
      order of members. */
  lemma CanonicalDecides(b: Budget, left: Bytes, right: Bytes, v: Value, w: Value)
    requires Parse(b, left) == Some(v) && Parse(b, right) == Some(w)
    ensures CanonicalText(v) == CanonicalText(w) <==> Same(v, w)
  {
    hide Parse, Print, Canon, Same, WellFormed;
    CanonicalReads(b, left, v);
    CanonicalReads(b, right, w);
    ParsedReads(b, left, v);
    ParsedReads(b, right, w);
    SameIsCanon(b, v, w);
  }

  /** The order of members does not matter, and nothing else is forgotten: objects have the same
      canonical form exactly when they have the same members, each in canonical form. */
  lemma ObjectsUpToOrder(b: Budget, ms: seq<Member>, ns: seq<Member>)
    requires WellFormed(b, Object(ms)) && WellFormed(b, Object(ns))
    ensures Canon(Object(ms)) == Canon(Object(ns)) <==> multiset(CanonMembers(ms)) == multiset(CanonMembers(ns))
  {
    CanonMembersKeep(b, ms, {});
    CanonMembersKeep(b, ns, {});
    KeysUnseen(b, CanonMembers(ms), {});
    KeysUnseen(b, CanonMembers(ns), {});
    hide WellFormed, CanonMembers, SortMembers;
    SortOrders(CanonMembers(ms));
    SortOrders(CanonMembers(ns));
    if multiset(CanonMembers(ms)) == multiset(CanonMembers(ns)) {
      OneArrangement(SortMembers(CanonMembers(ms)), SortMembers(CanonMembers(ns)));
    }
  }

  // ---- budgets only refuse ----

  ghost predicate Wider(b: Budget, c: Budget)
  {
    c.maxDepth == b.maxDepth && c.maxNodes >= b.maxNodes && c.numberFits == b.numberFits
  }

  lemma {:induction false} WiderReads(b: Budget, c: Budget, s: Bytes, depth: nat, nodes: nat)
    requires Wider(b, c)
    ensures ParseValue(b, s, depth, nodes).Ok? ==> ParseValue(c, s, depth, nodes) == ParseValue(b, s, depth, nodes)
    decreases |s|, 0
  {
    hide *;
    if s == [] {
      NothingToRead(b, s, depth, nodes);
    } else {
      var t := SkipSpace(s[1..]);
      if s[0] == OPEN_ARRAY {
        WiderItems(b, c, t, depth + 1, nodes + 1);
        WiderArray(b, c, s, depth, nodes);
      } else if s[0] == OPEN_OBJECT {
        WiderMembers(b, c, t, depth + 1, nodes + 1, {});
        WiderObject(b, c, s, depth, nodes);
      } else {
        WiderScalar(b, c, s, nodes);
        WiderOther(b, c, s, depth, nodes);
      }
    }
  }

  lemma NothingToRead(b: Budget, s: Bytes, depth: nat, nodes: nat)
    requires s == []
    ensures ParseValue(b, s, depth, nodes).Bad?
  {
  }

  lemma WiderArray(b: Budget, c: Budget, s: Bytes, depth: nat, nodes: nat)
    requires Wider(b, c) && s != [] && s[0] == OPEN_ARRAY
    requires var t := SkipSpace(s[1..]);
      ParseItems(b, t, depth + 1, nodes + 1).Ok? ==> ParseItems(c, t, depth + 1, nodes + 1) == ParseItems(b, t, depth + 1, nodes + 1)
    ensures ParseValue(b, s, depth, nodes).Ok? ==> ParseValue(c, s, depth, nodes) == ParseValue(b, s, depth, nodes)
  {
    hide ParseItems, ParseMembers, ParseScalar, SkipSpace;
  }

  lemma WiderObject(b: Budget, c: Budget, s: Bytes, depth: nat, nodes: nat)
    requires Wider(b, c) && s != [] && s[0] == OPEN_OBJECT
    requires var t := SkipSpace(s[1..]);
      ParseMembers(b, t, depth + 1, nodes + 1, {}).Ok? ==> ParseMembers(c, t, depth + 1, nodes + 1, {}) == ParseMembers(b, t, depth + 1, nodes + 1, {})
    ensures ParseValue(b, s, depth, nodes).Ok? ==> ParseValue(c, s, depth, nodes) == ParseValue(b, s, depth, nodes)
  {
    hide ParseItems, ParseMembers, ParseScalar, SkipSpace;
  }

  lemma WiderOther(b: Budget, c: Budget, s: Bytes, depth: nat, nodes: nat)
    requires Wider(b, c) && s != [] && s[0] != OPEN_ARRAY && s[0] != OPEN_OBJECT && ParseScalar(c, s, nodes) == ParseScalar(b, s, nodes)
    ensures ParseValue(b, s, depth, nodes).Ok? ==> ParseValue(c, s, depth, nodes) == ParseValue(b, s, depth, nodes)
  {
    hide ParseItems, ParseMembers, ParseScalar, SkipSpace;
  }

  lemma WiderScalar(b: Budget, c: Budget, s: Bytes, nodes: nat)
    requires Wider(b, c) && s != []
    ensures ParseScalar(c, s, nodes) == ParseScalar(b, s, nodes)
  {
  }

  lemma {:induction false} WiderItems(b: Budget, c: Budget, s: Bytes, depth: nat, nodes: nat)
    requires Wider(b, c)
    ensures ParseItems(b, s, depth, nodes).Ok? ==> ParseItems(c, s, depth, nodes) == ParseItems(b, s, depth, nodes)
    decreases |s|, 1
  {
    hide ParseValue;
    var v := ParseValue(b, SkipSpace(s), depth, nodes);
    if v.Ok? {
      WiderReads(b, c, SkipSpace(s), depth, nodes);
      var t := SkipSpace(v.rest);
      if t != [] && t[0] == COMMA {
        WiderItems(b, c, t[1..], depth, v.nodes);
      }
    }
  }

  lemma {:induction false} WiderMembers(b: Budget, c: Budget, s: Bytes, depth: nat, nodes: nat, seen: set<Bytes>)
    requires Wider(b, c)
    ensures ParseMembers(b, s, depth, nodes, seen).Ok? ==> ParseMembers(c, s, depth, nodes, seen) == ParseMembers(b, s, depth, nodes, seen)
    decreases |s|, 1
  {
    hide ParseValue;
    var k := ParseKey(b, SkipSpace(s), nodes);
    if k.Ok? {
      var v := ParseValue(b, k.rest, depth, k.nodes);
      if v.Ok? {
        WiderReads(b, c, k.rest, depth, k.nodes);
        var t := SkipSpace(v.rest);
        if t != [] && t[0] == COMMA {
          WiderMembers(b, c, t[1..], depth, v.nodes, seen + {k.value});
        }
      }
    }
  }

  lemma WiderParse(b: Budget, c: Budget, raw: Bytes)
    requires Wider(b, c) && Parse(b, raw).Some?
    ensures Parse(c, raw) == Parse(b, raw)
  {
    hide ParseValue;
    WiderReads(b, c, SkipSpace(raw), 0, 0);
  }
}
