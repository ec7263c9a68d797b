/** Texts that the parser reads as a given value, whatever follows them, and how objects and
    arrays are made of such texts (sections 4 and 5 of RFC 8259;
    internal/jsonvalue/parse.go:129-279). */
module JsonSays {
  import opened Utf8
  import opened Wrappers
  import opened Wire
  import opened Json
  import opened JsonRoundTrip
  import opened JsonEscapes

  // ---- strings ----

  lemma StepReads(s: Bytes, tail: Bytes)
    requires s != [] && RuneLen(s) > 0
    ensures StepLen(s) == RuneLen(s) && StringBody(StepOut(s) + tail) == Before(s[..RuneLen(s)], StringBody(tail))
  {
    hide StringBody, EscapeByte, SeparatorEscape;
    StepIsRune(s);
    var n := RuneLen(s);
    if Separator(s) {
      SeparatorReads(s, tail);
    } else {
      ReadRune(s, n, tail);
      if s[0] < 0x80 { assert n == 1 && s[..1] == [s[0]]; }
    }
  }

  lemma SeparatorReads(s: Bytes, tail: Bytes)
    requires Separator(s)
    ensures StringBody(SeparatorEscape(s) + tail) == Before(s[..3], StringBody(tail))
  {
    hide StringBody;
    var u := if s[2] == 0xA8 then 0x2028 else 0x2029;
    assert SeparatorEscape(s) == Unit(u) && s[..3] == EncodeRune(u);
    OneUnit(u, tail);
  }

  /** An encoded string reads as its text. */
  lemma {:induction false} BodyReads(s: Bytes, rest: Bytes)
    requires Utf8.Valid(s)
    ensures StringBody(Body(s) + [QUOTE] + rest) == Some((s, rest))
  {
    if s == [] {
      assert Body(s) + [QUOTE] + rest == [QUOTE] + rest;
      assert ([QUOTE] + rest)[1..] == rest;
    } else {
      hide StringBody, StepOut, RuneLen;
      var n := RuneLen(s);
      ValidStep(s);
      BodyReads(s[n..], rest);
      var tail := Body(s[n..]) + [QUOTE] + rest;
      StepReads(s, tail);
      Assoc(StepOut(s), Body(s[n..]), [QUOTE]);
      Assoc(StepOut(s), Body(s[n..]) + [QUOTE], rest);
      assert s == s[..n] + s[n..];
    }
  }

  // ---- texts that say a value ----

  predicate ReadAs(p: Parsed<Value>, v: Value, nodes: nat, rest: Bytes)
  {
    p.Ok? && p.value == v && p.nodes == nodes + Nodes(v) && SkipSpace(p.rest) == SkipSpace(rest)
  }

  /** The text starts a value of its own, with space before it at most. */
  predicate Begins(text: Bytes)
  {
    var t := SkipSpace(text);
    t != [] && t[0] != CLOSE_ARRAY && t[0] != CLOSE_OBJECT
  }

  /** Whatever follows it, the text is read as the value, in any place that has the room. */
  ghost predicate Says(b: Budget, text: Bytes, v: Value)
  {
    && Begins(text)
    && forall rest: Bytes, depth: nat, nodes: nat :: depth + Depth(v) <= b.maxDepth && nodes + Nodes(v) <= b.maxNodes ==>
         ReadAs(ParseValue(b, SkipSpace(text + rest), depth, nodes), v, nodes, rest)
  }

  lemma {:induction false} SkipFirst(text: Bytes, rest: Bytes)
    requires SkipSpace(text) != []
    ensures SkipSpace(text + rest) == SkipSpace(text) + rest
  {
    if text != [] && Space(text[0]) {
      assert (text + rest)[1..] == text[1..] + rest;
      SkipFirst(text[1..], rest);
    }
  }

  lemma StringSays(b: Budget, s: Bytes)
    requires Utf8.Valid(s)
    ensures Says(b, JsonString(s), Str(s))
  {
    hide Body, StringBody;
    var text := JsonString(s);
    assert text[0] == QUOTE && !Space(QUOTE);
    forall rest: Bytes, depth: nat, nodes: nat | depth <= b.maxDepth && nodes + 1 <= b.maxNodes
      ensures ReadAs(ParseValue(b, SkipSpace(text + rest), depth, nodes), Str(s), nodes, rest)
    {
      BodyReads(s, rest);
      var t := text + rest;
      assert t[1..] == Body(s) + [QUOTE] + rest;
    }
  }

  lemma TrueSays(b: Budget)
    ensures Says(b, TRUE, Bool(true))
  {
    forall rest: Bytes, depth: nat, nodes: nat | depth <= b.maxDepth && nodes + 1 <= b.maxNodes
      ensures ReadAs(ParseValue(b, SkipSpace(TRUE + rest), depth, nodes), Bool(true), nodes, rest)
    {
      assert (TRUE + rest)[..4] == TRUE && (TRUE + rest)[4..] == rest;
    }
  }

  // ---- arrays ----

  datatype Item = Item(text: Bytes, value: Value)

  function Texts(items: seq<Item>): (r: seq<Bytes>)
    ensures |r| == |items|
  {
    seq(|items|, i requires 0 <= i < |items| => items[i].text)
  }

  function Values(items: seq<Item>): (r: seq<Value>)
    ensures |r| == |items|
  {
    seq(|items|, i requires 0 <= i < |items| => items[i].value)
  }

  ghost predicate AllSay(b: Budget, items: seq<Item>)
  {
    forall i :: 0 <= i < |items| ==> Says(b, items[i].text, items[i].value)
  }

  lemma ItemsFirst(items: seq<Item>, rest: Bytes)
    requires items != []
    ensures Values(items) == [items[0].value] + Values(items[1..])
    ensures Join(Texts(items)) + [CLOSE_ARRAY] + rest
      == items[0].text + if |items| == 1 then [CLOSE_ARRAY] + rest else [COMMA] + (Join(Texts(items[1..])) + [CLOSE_ARRAY] + rest)
  {
    assert Texts(items)[1..] == Texts(items[1..]);
    var a, d := items[0].text, Join(Texts(items[1..]));
    if |items| > 1 {
      assert a + [COMMA] + d + [CLOSE_ARRAY] + rest == a + ([COMMA] + (d + [CLOSE_ARRAY] + rest));
    } else {
      assert a + [CLOSE_ARRAY] + rest == a + ([CLOSE_ARRAY] + rest);
    }
  }

  lemma Uses(b: Budget, text: Bytes, v: Value, rest: Bytes, depth: nat, nodes: nat)
    requires Says(b, text, v) && depth + Depth(v) <= b.maxDepth && nodes + Nodes(v) <= b.maxNodes
    ensures ReadAs(ParseValue(b, SkipSpace(text + rest), depth, nodes), v, nodes, rest)
  {
    hide ReadAs, ParseValue;
  }

  lemma {:induction false} ItemsRead(b: Budget, items: seq<Item>, rest: Bytes, depth: nat, nodes: nat)
    requires items != [] && AllSay(b, items)
    requires depth + DepthItems(Values(items)) <= b.maxDepth && nodes + NodesItems(Values(items)) <= b.maxNodes
    ensures ParseItems(b, Join(Texts(items)) + [CLOSE_ARRAY] + rest, depth, nodes) == Ok(Values(items), rest, nodes + NodesItems(Values(items)))
    decreases |items|
  {
    hide ParseValue, Says, SkipSpace;
    ItemsFirst(items, rest);
    var v, more := items[0].value, Values(items[1..]);
    assert Values(items)[1..] == more;
    var tail := if |items| == 1 then [CLOSE_ARRAY] + rest else [COMMA] + (Join(Texts(items[1..])) + [CLOSE_ARRAY] + rest);
    assert Says(b, items[0].text, v);
    Uses(b, items[0].text, v, tail, depth, nodes);
    NotSpace(tail);
    if |items| == 1 {
      assert tail[1..] == rest && more == [] && Values(items) == [v];
      assert NodesItems(Values(items)) == Nodes(v);
    } else {
      assert tail[1..] == Join(Texts(items[1..])) + [CLOSE_ARRAY] + rest;
      ItemsRead(b, items[1..], rest, depth, nodes + Nodes(v));
    }
  }

  lemma NotSpace(s: Bytes)
    requires s != [] && !Space(s[0])
    ensures SkipSpace(s) == s
  {
  }

  lemma ArraySays(b: Budget, items: seq<Item>)
    requires AllSay(b, items)
    ensures Says(b, [OPEN_ARRAY] + Join(Texts(items)) + [CLOSE_ARRAY], Array(Values(items)))
  {
    var text, v := [OPEN_ARRAY] + Join(Texts(items)) + [CLOSE_ARRAY], Array(Values(items));
    forall rest: Bytes, depth: nat, nodes: nat | depth + Depth(v) <= b.maxDepth && nodes + Nodes(v) <= b.maxNodes
      ensures ReadAs(ParseValue(b, SkipSpace(text + rest), depth, nodes), v, nodes, rest)
    {
      ArrayReads(b, items, rest, depth, nodes);
    }
    hide Says;
    assert text[0] == OPEN_ARRAY;
    NotSpace(text);
    hide *;
    SaysFrom(b, text, v);
  }

  lemma SaysFrom(b: Budget, text: Bytes, v: Value)
    requires Begins(text)
    requires forall rest: Bytes, depth: nat, nodes: nat :: depth + Depth(v) <= b.maxDepth && nodes + Nodes(v) <= b.maxNodes ==>
      ReadAs(ParseValue(b, SkipSpace(text + rest), depth, nodes), v, nodes, rest)
    ensures Says(b, text, v)
  {
    hide ParseValue, ReadAs, SkipSpace;
  }

  lemma ArrayReads(b: Budget, items: seq<Item>, rest: Bytes, depth: nat, nodes: nat)
    requires AllSay(b, items)
    requires var v := Array(Values(items)); depth + Depth(v) <= b.maxDepth && nodes + Nodes(v) <= b.maxNodes
    ensures ReadAs(ParseValue(b, SkipSpace([OPEN_ARRAY] + Join(Texts(items)) + [CLOSE_ARRAY] + rest), depth, nodes), Array(Values(items)), nodes, rest)
  {
    hide ParseItems, ParseMembers, ParseScalar, Says;
    var inner := Join(Texts(items)) + [CLOSE_ARRAY] + rest;
    var s := [OPEN_ARRAY] + Join(Texts(items)) + [CLOSE_ARRAY] + rest;
    assert s == [OPEN_ARRAY] + inner && s[1..] == inner;
    NotSpace(s);
    if items == [] {
      assert inner == [CLOSE_ARRAY] + rest && inner[1..] == rest;
      assert Values(items) == [];
    } else {
      ItemsRead(b, items, rest, depth + 1, nodes + 1);
      FirstSays(b, items[0], items, rest);
      SkippedItems(b, inner, depth + 1, nodes + 1);
    }
  }

  lemma FirstSays(b: Budget, first: Item, items: seq<Item>, rest: Bytes)
    requires items != [] && first == items[0] && AllSay(b, items)
    ensures Begins(Join(Texts(items)) + [CLOSE_ARRAY] + rest)
  {
    hide ParseValue;
    ItemsFirst(items, rest);
    var tail := if |items| == 1 then [CLOSE_ARRAY] + rest else [COMMA] + (Join(Texts(items[1..])) + [CLOSE_ARRAY] + rest);
    assert Says(b, first.text, first.value);
    SkipFirst(first.text, tail);
    assert (SkipSpace(first.text) + tail)[0] == SkipSpace(first.text)[0];
  }

  /** Space before the first element does not matter. */
  lemma SkippedItems(b: Budget, s: Bytes, depth: nat, nodes: nat)
    ensures ParseItems(b, SkipSpace(s), depth, nodes) == ParseItems(b, s, depth, nodes)
  {
    hide ParseValue;
    SkipTwice(s);
  }

  lemma {:induction false} SkipTwice(s: Bytes)
    ensures SkipSpace(SkipSpace(s)) == SkipSpace(s)
  {
    if s != [] && Space(s[0]) {
      SkipTwice(s[1..]);
    }
  }

  // ---- objects ----

  datatype Field = Field(key: Bytes, text: Bytes, value: Value)

  function FieldText(f: Field): Bytes
  {
    JsonString(f.key) + [COLON] + f.text
  }

  function FieldsText(fields: seq<Field>): Bytes
  {
    if fields == [] then []
    else if |fields| == 1 then FieldText(fields[0])
    else FieldText(fields[0]) + [COMMA] + FieldsText(fields[1..])
  }

  function Members(fields: seq<Field>): (r: seq<Member>)
    ensures |r| == |fields|
  {
    if fields == [] then [] else [Member(fields[0].key, fields[0].value)] + Members(fields[1..])
  }

  /** Each key comes once, and each text says its value. */
  ghost predicate FieldsSay(b: Budget, fields: seq<Field>, seen: set<Bytes>)
  {
    fields == [] || (
      && Utf8.Valid(fields[0].key) && fields[0].key !in seen && Says(b, fields[0].text, fields[0].value)
      && FieldsSay(b, fields[1..], seen + {fields[0].key}))
  }

  lemma FieldsFirst(fields: seq<Field>, rest: Bytes)
    requires fields != []
    ensures FieldsText(fields) + [CLOSE_OBJECT] + rest
      == JsonString(fields[0].key) + ([COLON] + (fields[0].text + if |fields| == 1 then [CLOSE_OBJECT] + rest else [COMMA] + (FieldsText(fields[1..]) + [CLOSE_OBJECT] + rest)))
  {
    var k, t, d := JsonString(fields[0].key), fields[0].text, FieldsText(fields[1..]);
    FieldsTextIs(fields);
    hide *;
    if |fields| > 1 {
      Regroup(k + [COLON] + t, [COMMA], d, [CLOSE_OBJECT], rest);
      Assoc(k + [COLON], t, [COMMA] + (d + [CLOSE_OBJECT] + rest));
      Assoc(k, [COLON], t + ([COMMA] + (d + [CLOSE_OBJECT] + rest)));
    } else {
      Assoc(k + [COLON] + t, [CLOSE_OBJECT], rest);
      Assoc(k + [COLON], t, [CLOSE_OBJECT] + rest);
      Assoc(k, [COLON], t + ([CLOSE_OBJECT] + rest));
    }
  }

  lemma FieldsTextIs(fields: seq<Field>)
    requires fields != []
    ensures FieldsText(fields) == if |fields| == 1 then FieldText(fields[0]) else FieldText(fields[0]) + [COMMA] + FieldsText(fields[1..])
    ensures FieldText(fields[0]) == JsonString(fields[0].key) + [COLON] + fields[0].text
  {
  }

  lemma KeyReads(b: Budget, key: Bytes, tail: Bytes, nodes: nat)
    requires Utf8.Valid(key) && nodes < b.maxNodes
    ensures ParseKey(b, SkipSpace(JsonString(key) + ([COLON] + tail)), nodes) == Ok(key, SkipSpace(tail), nodes + 1)
  {
    hide Body, StringBody;
    var s := JsonString(key) + ([COLON] + tail);
    assert s[0] == QUOTE && !Space(QUOTE);
    NotSpace(s);
    BodyReads(key, [COLON] + tail);
    assert s[1..] == Body(key) + [QUOTE] + ([COLON] + tail);
    NotSpace([COLON] + tail);
    assert ([COLON] + tail)[1..] == tail;
  }

  lemma {:induction false} FieldsRead(b: Budget, fields: seq<Field>, seen: set<Bytes>, rest: Bytes, depth: nat, nodes: nat)
    requires fields != [] && FieldsSay(b, fields, seen)
    requires depth + DepthMembers(Members(fields)) <= b.maxDepth && nodes + NodesMembers(Members(fields)) <= b.maxNodes
    ensures ParseMembers(b, FieldsText(fields) + [CLOSE_OBJECT] + rest, depth, nodes, seen)
      == Ok(Members(fields), rest, nodes + NodesMembers(Members(fields)))
    decreases |fields|
  {
    hide ParseValue, ParseKey, Says, SkipSpace, JsonString;
    FieldsFirst(fields, rest);
    var f, more := fields[0], Members(fields[1..]);
    assert Members(fields)[1..] == more;
    var tail := if |fields| == 1 then [CLOSE_OBJECT] + rest else [COMMA] + (FieldsText(fields[1..]) + [CLOSE_OBJECT] + rest);
    KeyReads(b, f.key, f.text + tail, nodes);
    Uses(b, f.text, f.value, tail, depth, nodes + 1);
    NotSpace(tail);
    if |fields| == 1 {
      assert tail[1..] == rest && more == [] && Members(fields) == [Member(f.key, f.value)];
      assert NodesMembers(Members(fields)) == 1 + Nodes(f.value);
    } else {
      assert tail[1..] == FieldsText(fields[1..]) + [CLOSE_OBJECT] + rest;
      FieldsRead(b, fields[1..], seen + {f.key}, rest, depth, nodes + 1 + Nodes(f.value));
    }
  }

  lemma ObjectSays(b: Budget, fields: seq<Field>)
    requires fields != [] && FieldsSay(b, fields, {})
    ensures Says(b, [OPEN_OBJECT] + FieldsText(fields) + [CLOSE_OBJECT], Object(Members(fields)))
  {
    var text, v := [OPEN_OBJECT] + FieldsText(fields) + [CLOSE_OBJECT], Object(Members(fields));
    forall rest: Bytes, depth: nat, nodes: nat | depth + Depth(v) <= b.maxDepth && nodes + Nodes(v) <= b.maxNodes
      ensures ReadAs(ParseValue(b, SkipSpace(text + rest), depth, nodes), v, nodes, rest)
    {
      ObjectReads(b, fields, rest, depth, nodes);
    }
    assert text[0] == OPEN_OBJECT;
    NotSpace(text);
    hide *;
    SaysFrom(b, text, v);
  }

  lemma ObjectReads(b: Budget, fields: seq<Field>, rest: Bytes, depth: nat, nodes: nat)
    requires fields != [] && FieldsSay(b, fields, {})
    requires var v := Object(Members(fields)); depth + Depth(v) <= b.maxDepth && nodes + Nodes(v) <= b.maxNodes
    ensures ReadAs(ParseValue(b, SkipSpace([OPEN_OBJECT] + FieldsText(fields) + [CLOSE_OBJECT] + rest), depth, nodes), Object(Members(fields)), nodes, rest)
  {
    hide ParseItems, ParseMembers, ParseScalar, Says, FieldsText, FieldsSay, JsonString;
    var inner := FieldsText(fields) + [CLOSE_OBJECT] + rest;
    var s := [OPEN_OBJECT] + FieldsText(fields) + [CLOSE_OBJECT] + rest;
    assert s == [OPEN_OBJECT] + inner && s[1..] == inner;
    NotSpace(s);
    FieldsRead(b, fields, {}, rest, depth + 1, nodes + 1);
    FieldsFirst(fields, rest);
    StartsQuoted(fields[0].key, inner);
  }

  lemma StartsQuoted(key: Bytes, s: Bytes)
    requires exists tail :: s == JsonString(key) + tail
    ensures s != [] && s[0] == QUOTE && SkipSpace(s) == s
  {
    hide Body;
    var tail :| s == JsonString(key) + tail;
    assert s[0] == QUOTE && !Space(QUOTE);
  }

  /** A text that says a value and has nothing after it is parsed as the value. */
  lemma SaysParses(b: Budget, text: Bytes, v: Value)
    requires Says(b, text, v) && Depth(v) <= b.maxDepth && Nodes(v) <= b.maxNodes
    ensures Parse(b, text) == Some(v)
  {
    Uses(b, text, v, [], 0, 0);
    assert text + [] == text;
  }

  /** What is printed says its value, unless it is a number, which needs an end. */
  lemma PrintSays(b: Budget, v: Value)
    requires WellFormed(b, v) && !v.Number?
    ensures Says(b, Print(v), v)
  {
    PrintStarts(b, v);
    hide Print;
    NotSpace(Print(v));
    forall rest: Bytes, depth: nat, nodes: nat | depth + Depth(v) <= b.maxDepth && nodes + Nodes(v) <= b.maxNodes
      ensures ReadAs(ParseValue(b, SkipSpace(Print(v) + rest), depth, nodes), v, nodes, rest)
    {
      PrintReads(b, v, rest, depth, nodes);
      assert (Print(v) + rest)[0] == Print(v)[0];
      NotSpace(Print(v) + rest);
    }
  }
}
