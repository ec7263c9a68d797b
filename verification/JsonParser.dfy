/** The parser as it runs: a position, a depth and a node count over one buffer
    (internal/jsonvalue/parse.go:72-89, 121-480). */
module JsonParser {
  import opened Utf8
  import opened Wrappers
  import opened Wire
  import opened Json

  class Parser {
    const src: Bytes
    const budget: Budget
    var i: nat
    var depth: nat
    var nodes: nat

    ghost predicate Valid()
      reads this
    {
      i <= |src|
    }

    /** What is still to be read. */
    ghost function Rest(): Bytes
      requires Valid()
      reads this
    {
      src[i..]
    }

    constructor (src: Bytes, budget: Budget)
      ensures Valid() && this.src == src && this.budget == budget && i == 0 && depth == 0 && nodes == 0
    {
      this.src, this.budget := src, budget;
      i, depth, nodes := 0, 0, 0;
    }

    method SkipSpaces()
      requires Valid()
      modifies this`i
      ensures Valid() && old(i) <= i && Rest() == SkipSpace(old(Rest()))
    {
      while i < |src|
        invariant Valid() && old(i) <= i && SkipSpace(Rest()) == SkipSpace(old(Rest()))
      {
        if !Space(src[i]) {
          return;
        }
        assert Rest()[1..] == src[i + 1..];
        i := i + 1;
      }
    }

    method ScanDigits() returns (n: nat)
      requires Valid()
      modifies this`i
      ensures Valid() && n == Digits(old(Rest())) && i == old(i) + n
    {
      n := 0;
      while i < |src| && Digit(src[i])
        invariant Valid() && i == old(i) + n && n + Digits(Rest()) == Digits(old(Rest()))
      {
        assert Rest()[1..] == src[i + 1..];
        n, i := n + 1, i + 1;
      }
    }

    method ScanInt() returns (ok: bool)
      requires Valid()
      modifies this`i
      ensures Valid() && old(i) <= i
      ensures ok <==> IntLen(old(Rest())).Some?
      ensures ok ==> i == old(i) + IntLen(old(Rest())).value
    {
      var zero := i < |src| && src[i] == 48;
      var n := ScanDigits();
      ok := n > 0 && !(zero && n > 1);
    }

    method ScanFrac() returns (ok: bool)
      requires Valid()
      modifies this`i
      ensures Valid() && old(i) <= i
      ensures ok <==> FracLen(old(Rest())).Some?
      ensures ok ==> i == old(i) + FracLen(old(Rest())).value
    {
      if i >= |src| || src[i] != 46 {
        return true;
      }
      assert Rest()[1..] == src[i + 1..];
      i := i + 1;
      var n := ScanDigits();
      ok := n > 0;
    }

    method ScanExp() returns (ok: bool)
      requires Valid()
      modifies this`i
      ensures Valid() && old(i) <= i
      ensures ok <==> ExpLen(old(Rest())).Some?
      ensures ok ==> i == old(i) + ExpLen(old(Rest())).value
    {
      if i >= |src| || (src[i] != 101 && src[i] != 69) {
        return true;
      }
      ghost var s := Rest();
      i := i + 1;
      if i < |src| && (src[i] == 43 || src[i] == 45) {
        i := i + 1;
      }
      assert Rest() == s[i - old(i)..];
      var n := ScanDigits();
      ok := n > 0;
    }

    /** parseNumber, the lexeme it takes. */
    method ScanNumber() returns (ok: bool)
      requires Valid()
      modifies this`i
      ensures Valid() && old(i) <= i
      ensures ok <==> NumberLen(old(Rest())).Some?
      ensures ok ==> i == old(i) + NumberLen(old(Rest())).value
    {
      hide IntLen, FracLen, ExpLen;
      ghost var s := Rest();
      if i < |src| && src[i] == 45 {
        i := i + 1;
      }
      assert i - old(i) == SignLen(s) && Rest() == s[SignLen(s)..];
      ok := ScanInt();
      if !ok {
        return;
      }
      assert Rest() == s[i - old(i)..];
      ok := ScanFrac();
      if !ok {
        return;
      }
      assert Rest() == s[i - old(i)..];
      ok := ScanExp();
    }

    /** parseString, after its opening quote. */
    method ScanString() returns (r: Option<Bytes>)
      requires Valid()
      modifies this`i
      ensures Valid() && old(i) <= i
      ensures r.Some? <==> StringBody(old(Rest())).Some?
      ensures r.Some? ==> i > old(i) && (r.value, Rest()) == StringBody(old(Rest())).value
    {
      hide Json.Escape, RuneLen;
      var buf: Bytes := [];
      ghost var goal := StringBody(Rest());
      NothingBefore(goal);
      while i < |src|
        invariant Valid() && old(i) <= i && goal == Before(buf, StringBody(Rest()))
        decreases |src| - i
      {
        ghost var s := Rest();
        var c := src[i];
        if c == QUOTE {
          i := i + 1;
          assert Rest() == s[1..] && buf + [] == buf;
          return Some(buf);
        }
        if c == BACKSLASH {
          assert s[1..] == src[i + 1..];
          var e := Json.Escape(src[i + 1..]);
          if e.None? {
            return None;
          }
          TwiceBefore(buf, e.value.0, StringBody(s[1 + e.value.1..]));
          buf := buf + e.value.0;
          i := i + 1 + e.value.1;
          assert Rest() == s[1 + e.value.1..];
          continue;
        }
        if c < 0x20 {
          return None;
        }
        if c < 0x80 {
          TwiceBefore(buf, [c], StringBody(s[1..]));
          buf := buf + [c];
          i := i + 1;
          assert Rest() == s[1..];
          continue;
        }
        var size := RuneLen(src[i..]);
        if size == 0 {
          return None;
        }
        TwiceBefore(buf, s[..size], StringBody(s[size..]));
        buf := buf + src[i..][..size];
        i := i + size;
        assert Rest() == s[size..];
      }
      assert Rest() == [];
      r := None;
    }

    /** The method did what the specification says of the text that was left. */
    ghost predicate Did<T>(p: Parsed<T>, r: Option<T>)
      reads this
    {
      Valid() && (r.Some? <==> p.Ok?) && (r.Some? ==> p == Ok(r.value, Rest(), nodes))
    }

    method ParseScalarValue() returns (r: Option<Value>)
      requires Valid() && i < |src|
      modifies this`i, this`nodes
      ensures Did(ParseScalar(budget, old(Rest()), old(nodes)), r) && old(i) <= i
    {
      hide StringBody, NumberLen;
      nodes := nodes + 1;
      ghost var s := Rest();
      if src[i] == 110 {
        r := TakeLiteral(NULL, Null);
      } else if src[i] == 116 {
        r := TakeLiteral(TRUE, Bool(true));
      } else if src[i] == 102 {
        r := TakeLiteral(FALSE, Bool(false));
      } else if src[i] == QUOTE {
        i := i + 1;
        assert Rest() == s[1..];
        var text := ScanString();
        r := if text.None? then None else Some(Str(text.value));
      } else {
        var start := i;
        var ok := ScanNumber();
        if !ok {
          return None;
        }
        assert src[start..i] == s[..i - start] && Rest() == s[i - start..];
        if !budget.numberFits(src[start..i]) {
          return None;
        }
        r := Some(Number(src[start..i]));
      }
    }

    method TakeLiteral(lit: Bytes, v: Value) returns (r: Option<Value>)
      requires Valid() && lit != []
      modifies this`i
      ensures Valid() && old(i) <= i
      ensures r.Some? <==> |lit| <= |old(Rest())| && old(Rest())[..|lit|] == lit
      ensures r.Some? ==> r.value == v && Rest() == old(Rest())[|lit|..]
    {
      if i + |lit| > |src| || src[i..i + |lit|] != lit {
        assert i + |lit| <= |src| ==> Rest()[..|lit|] == src[i..i + |lit|];
        return None;
      }
      assert Rest()[..|lit|] == src[i..i + |lit|] && Rest()[|lit|..] == src[i + |lit|..];
      i := i + |lit|;
      r := Some(v);
    }

    /** parseValue. */
    method ParseOne() returns (r: Option<Value>)
      requires Valid()
      modifies this`i, this`depth, this`nodes
      ensures Did(ParseValue(budget, old(Rest()), old(depth), old(nodes)), r) && old(i) <= i && (r.Some? ==> depth == old(depth) && old(i) < i)
      decreases |src| - i, 2
    {
      hide ParseItems, ParseMembers, ParseScalar, SkipSpace;
      if nodes >= budget.maxNodes || i >= |src| {
        return None;
      }
      if src[i] == OPEN_ARRAY || src[i] == OPEN_OBJECT {
        if depth >= budget.maxDepth {
          return None;
        }
        if src[i] == OPEN_ARRAY {
          r := ParseArray();
        } else {
          r := ParseObject();
        }
        return;
      }
      r := ParseScalarValue();
    }

    method ParseArray() returns (r: Option<Value>)
      requires Valid() && i < |src| && src[i] == OPEN_ARRAY && nodes < budget.maxNodes && depth < budget.maxDepth
      modifies this`i, this`depth, this`nodes
      ensures Did(ParseValue(budget, old(Rest()), old(depth), old(nodes)), r) && old(i) <= i && (r.Some? ==> depth == old(depth) && old(i) < i)
      decreases |src| - i, 1
    {
      hide ParseItems, SkipSpace;
      ghost var s := Rest();
      nodes, depth, i := nodes + 1, depth + 1, i + 1;
      assert Rest() == s[1..];
      SkipSpaces();
      if i < |src| && src[i] == CLOSE_ARRAY {
        assert Rest()[1..] == src[i + 1..];
        i, depth := i + 1, depth - 1;
        return Some(Array([]));
      }
      var items := ParseElements();
      if items.None? {
        return None;
      }
      depth := depth - 1;
      r := Some(Array(items.value));
    }

    method ParseObject() returns (r: Option<Value>)
      requires Valid() && i < |src| && src[i] == OPEN_OBJECT && nodes < budget.maxNodes && depth < budget.maxDepth
      modifies this`i, this`depth, this`nodes
      ensures Did(ParseValue(budget, old(Rest()), old(depth), old(nodes)), r) && old(i) <= i && (r.Some? ==> depth == old(depth) && old(i) < i)
      decreases |src| - i, 1
    {
      hide ParseMembers, SkipSpace;
      ghost var s := Rest();
      nodes, depth, i := nodes + 1, depth + 1, i + 1;
      assert Rest() == s[1..];
      SkipSpaces();
      if i < |src| && src[i] == CLOSE_OBJECT {
        assert Rest()[1..] == src[i + 1..];
        i, depth := i + 1, depth - 1;
        return Some(Object([]));
      }
      var members := ParsePairs();
      if members.None? {
        return None;
      }
      depth := depth - 1;
      r := Some(Object(members.value));
    }

    /** The loop of parseArray. */
    method ParseElements() returns (r: Option<seq<Value>>)
      requires Valid()
      modifies this`i, this`depth, this`nodes
      ensures Did(ParseItems(budget, old(Rest()), old(depth), old(nodes)), r) && old(i) <= i && (r.Some? ==> depth == old(depth) && old(i) < i)
      decreases |src| - i, 3
    {
      hide ParseValue, ParseItems, SkipSpace, ItemsBefore;
      var items: seq<Value> := [];
      ghost var goal := ParseItems(budget, Rest(), depth, nodes);
      NothingBeforeItems(goal);
      while true
        invariant Valid() && old(i) <= i && depth == old(depth)
        invariant goal == ItemsBefore(items, ParseItems(budget, Rest(), depth, nodes))
        decreases |src| - i
      {
        ghost var was := items;
        ItemsTurn(budget, Rest(), depth, nodes, items);
        SkipSpaces();
        var v := ParseOne();
        if v.None? {
          return None;
        }
        SkipSpaces();
        if i >= |src| {
          return None;
        }
        assert Rest()[1..] == src[i + 1..];
        items := items + [v.value];
        if src[i] == CLOSE_ARRAY {
          i := i + 1;
          return Some(items);
        }
        if src[i] != COMMA {
          return None;
        }
        i := i + 1;
        TwiceItems(was, v.value, ParseItems(budget, Rest(), depth, nodes));
      }
    }

    /** The loop of parseObject. */
    method ParsePairs() returns (r: Option<seq<Member>>)
      requires Valid()
      modifies this`i, this`depth, this`nodes
      ensures Did(ParseMembers(budget, old(Rest()), old(depth), old(nodes), {}), r) && old(i) <= i && (r.Some? ==> depth == old(depth) && old(i) < i)
      decreases |src| - i, 3
    {
      hide ParseValue, ParseKey, ParseMembers, SkipSpace, MembersBefore;
      var members: seq<Member> := [];
      var seen: set<Bytes> := {};
      ghost var goal := ParseMembers(budget, Rest(), depth, nodes, seen);
      NothingBeforeMembers(goal);
      while true
        invariant Valid() && old(i) <= i && depth == old(depth)
        invariant goal == MembersBefore(members, ParseMembers(budget, Rest(), depth, nodes, seen))
        decreases |src| - i
      {
        ghost var was := members;
        MembersTurn(budget, Rest(), depth, nodes, seen, members);
        SkipSpaces();
        var key := ParseKeyColon();
        if key.None? || key.value in seen {
          return None;
        }
        var v := ParseOne();
        if v.None? {
          return None;
        }
        SkipSpaces();
        if i >= |src| {
          return None;
        }
        assert Rest()[1..] == src[i + 1..];
        members := members + [Member(key.value, v.value)];
        seen := seen + {key.value};
        if src[i] == CLOSE_OBJECT {
          i := i + 1;
          return Some(members);
        }
        if src[i] != COMMA {
          return None;
        }
        i := i + 1;
        TwiceMembers(was, Member(key.value, v.value), ParseMembers(budget, Rest(), depth, nodes, seen));
      }
    }

    method ParseKeyColon() returns (r: Option<Bytes>)
      requires Valid()
      modifies this`i, this`nodes
      ensures Did(ParseKey(budget, old(Rest()), old(nodes)), r) && old(i) <= i && (r.Some? ==> old(i) < i)
    {
      hide StringBody, SkipSpace;
      if i >= |src| || src[i] != QUOTE {
        return None;
      }
      if nodes >= budget.maxNodes {
        return None;
      }
      nodes := nodes + 1;
      assert Rest()[1..] == src[i + 1..];
      i := i + 1;
      var key := ScanString();
      if key.None? {
        return None;
      }
      SkipSpaces();
      if i >= |src| || src[i] != COLON {
        return None;
      }
      assert Rest()[1..] == src[i + 1..];
      i := i + 1;
      SkipSpaces();
      r := key;
    }
  }

  /** Parse: the parser reads exactly one value and nothing after it. */
  method ParseText(budget: Budget, raw: Bytes) returns (r: Option<Value>)
    ensures r == Parse(budget, raw)
  {
    hide ParseValue;
    var p := new Parser(raw, budget);
    assert p.Rest() == raw;
    p.SkipSpaces();
    var v := p.ParseOne();
    if v.None? {
      return None;
    }
    p.SkipSpaces();
    r := if p.i < |raw| then None else v;
  }

  // ---- what was read before the rest ----

  lemma NothingBefore(r: Option<(Bytes, Bytes)>)
    ensures Before([], r) == r
  {
    if r.Some? {
      assert [] + r.value.0 == r.value.0;
    }
  }

  lemma TwiceBefore(a: Bytes, b: Bytes, r: Option<(Bytes, Bytes)>)
    ensures Before(a, Before(b, r)) == Before(a + b, r)
  {
    if r.Some? {
      Assoc(a, b, r.value.0);
    }
  }

  ghost function ItemsBefore(items: seq<Value>, r: Parsed<seq<Value>>): Parsed<seq<Value>>
  {
    if r.Bad? then Bad else Ok(items + r.value, r.rest, r.nodes)
  }

  lemma NothingBeforeItems(r: Parsed<seq<Value>>)
    ensures ItemsBefore([], r) == r
  {
    if r.Ok? {
      assert [] + r.value == r.value;
    }
  }

  lemma TwiceItems(items: seq<Value>, v: Value, r: Parsed<seq<Value>>)
    ensures ItemsBefore(items, ItemsBefore([v], r)) == ItemsBefore(items + [v], r)
  {
    if r.Ok? {
      assert items + ([v] + r.value) == items + [v] + r.value;
    }
  }

  /** One turn of the element loop, by the specification. */
  lemma ItemsTurn(b: Budget, s: Bytes, depth: nat, nodes: nat, items: seq<Value>)
    ensures var all := ItemsBefore(items, ParseItems(b, s, depth, nodes)); var v := ParseValue(b, SkipSpace(s), depth, nodes);
      if v.Bad? then all.Bad?
      else
        var t := SkipSpace(v.rest);
        if t != [] && t[0] == CLOSE_ARRAY then all == Ok(items + [v.value], t[1..], v.nodes)
        else if t != [] && t[0] == COMMA then all == ItemsBefore(items, ItemsBefore([v.value], ParseItems(b, t[1..], depth, v.nodes)))
        else all.Bad?
  {
    hide ParseValue, SkipSpace;
  }

  /** One turn of the member loop, by the specification. */
  lemma MembersTurn(b: Budget, s: Bytes, depth: nat, nodes: nat, seen: set<Bytes>, members: seq<Member>)
    ensures var all := MembersBefore(members, ParseMembers(b, s, depth, nodes, seen)); var k := ParseKey(b, SkipSpace(s), nodes);
      if k.Bad? || k.value in seen then all.Bad?
      else
        var v := ParseValue(b, k.rest, depth, k.nodes);
        if v.Bad? then all.Bad?
        else
          var t, m := SkipSpace(v.rest), Member(k.value, v.value);
          if t != [] && t[0] == CLOSE_OBJECT then all == Ok(members + [m], t[1..], v.nodes)
          else if t != [] && t[0] == COMMA then
            all == MembersBefore(members, MembersBefore([m], ParseMembers(b, t[1..], depth, v.nodes, seen + {k.value})))
          else all.Bad?
  {
    hide ParseValue, ParseKey, SkipSpace;
  }

  ghost function MembersBefore(members: seq<Member>, r: Parsed<seq<Member>>): Parsed<seq<Member>>
  {
    if r.Bad? then Bad else Ok(members + r.value, r.rest, r.nodes)
  }

  lemma NothingBeforeMembers(r: Parsed<seq<Member>>)
    ensures MembersBefore([], r) == r
  {
    if r.Ok? {
      assert [] + r.value == r.value;
    }
  }

  lemma TwiceMembers(members: seq<Member>, m: Member, r: Parsed<seq<Member>>)
    ensures MembersBefore(members, MembersBefore([m], r)) == MembersBefore(members + [m], r)
  {
    if r.Ok? {
      assert members + ([m] + r.value) == members + [m] + r.value;
    }
  }
}
