/** Strict JSON: the value tree, the parser of one value and the printer of the canonical form
    (sections 3 to 7 of RFC 8259; internal/jsonvalue/parse.go:72-472,
    internal/jsonvalue/canon.go:11-102). */
module Json {
  import opened Utf8
  import opened Wrappers
  import opened Wire
  import E = Escape

  datatype Value =
    | Null
    | Bool(b: bool)
    | Number(lexeme: Bytes)
    | Str(text: Bytes)
    | Array(items: seq<Value>)
    | Object(members: seq<Member>)

  datatype Member = Member(key: Bytes, value: Value)

  /** The budgets of a parse; whether a number fits depends on its lexeme alone. */
  datatype Budget = Budget(maxDepth: nat, maxNodes: nat, numberFits: Bytes -> bool)

  const NULL: Bytes := [110, 117, 108, 108]
  const TRUE: Bytes := [116, 114, 117, 101]
  const FALSE: Bytes := [102, 97, 108, 115, 101]
  const OPEN_ARRAY: byte := 91
  const CLOSE_ARRAY: byte := 93
  const OPEN_OBJECT: byte := 123
  const CLOSE_OBJECT: byte := 125

  predicate Space(b: byte)
  {
    b == 32 || b == 9 || b == 10 || b == 13
  }

  predicate Digit(b: byte)
  {
    48 <= b <= 57
  }

  function SkipSpace(s: Bytes): (r: Bytes)
    ensures |r| <= |s| && (r != [] ==> !Space(r[0]))
  {
    if s != [] && Space(s[0]) then SkipSpace(s[1..]) else s
  }

  // ---- numbers ----

  /** How many digits a text starts with. */
  function Digits(s: Bytes): (n: nat)
    ensures n <= |s|
  {
    if s == [] || !Digit(s[0]) then 0 else 1 + Digits(s[1..])
  }

  /** The integer part: a zero alone or digits that do not start with zero. */
  function IntLen(s: Bytes): (r: Option<nat>)
    ensures r.Some? ==> 0 < r.value <= |s|
  {
    if Digits(s) == 0 then None
    else if s[0] == 48 then (if Digits(s) > 1 then None else Some(1))
    else Some(Digits(s))
  }

  function FracLen(s: Bytes): (r: Option<nat>)
    ensures r.Some? ==> r.value <= |s|
  {
    if s == [] || s[0] != 46 then Some(0)
    else if Digits(s[1..]) == 0 then None else Some(1 + Digits(s[1..]))
  }

  function ExpLen(s: Bytes): (r: Option<nat>)
    ensures r.Some? ==> r.value <= |s|
  {
    if s == [] || (s[0] != 101 && s[0] != 69) then Some(0)
    else
      var sign := if |s| > 1 && (s[1] == 43 || s[1] == 45) then 1 else 0;
      if Digits(s[1 + sign..]) == 0 then None else Some(1 + sign + Digits(s[1 + sign..]))
  }

  function SignLen(s: Bytes): (n: nat)
    ensures n <= |s|
  {
    if s != [] && s[0] == 45 then 1 else 0
  }

  /** The length of the number a text starts with, taken as far as it goes. */
  function NumberLen(s: Bytes): (r: Option<nat>)
    ensures r.Some? ==> 0 < r.value <= |s|
  {
    var a := SignLen(s);
    var i := IntLen(s[a..]);
    if i.None? then None
    else
      var f := FracLen(s[a + i.value..]);
      if f.None? then None
      else
        var e := ExpLen(s[a + i.value + f.value..]);
        if e.None? then None else Some(a + i.value + f.value + e.value)
  }

  // ---- strings ----

  function HexQuad(s: Bytes): (r: Option<nat>)
    ensures r.Some? ==> |s| >= 4 && r.value < 0x10000
  {
    if |s| < 4 then None
    else
      var a, b, c, d := E.HexValue(s[0]), E.HexValue(s[1]), E.HexValue(s[2]), E.HexValue(s[3]);
      if a.None? || b.None? || c.None? || d.None? then None
      else if a.value > 15 || b.value > 15 || c.value > 15 || d.value > 15 then None
      else Some(a.value * 4096 + b.value * 256 + c.value * 16 + d.value)
  }

  /** Four bytes for a code point beyond the basic plane. */
  function EncodePair(high: nat, low: nat): Bytes
    requires 0xD800 <= high < 0xDC00 && 0xDC00 <= low < 0xE000
  {
    var c := 0x10000 + (high - 0xD800) * 0x400 + (low - 0xDC00);
    [0xF0 + c / 0x40000, 0x80 + c / 0x1000 % 64, 0x80 + c / 64 % 64, 0x80 + c % 64]
  }

  /** What an escape stands for and how many bytes it takes after the backslash. */
  function Escape(s: Bytes): (r: Option<(Bytes, nat)>)
    ensures r.Some? ==> 0 < r.value.1 <= |s|
  {
    if s == [] then None
    else if s[0] == 117 then
      var c := HexQuad(s[1..]);
      if c.None? || 0xDC00 <= c.value < 0xE000 then None
      else if 0xD800 <= c.value < 0xDC00 then
        if |s| < 11 || s[5] != BACKSLASH || s[6] != 117 then None
        else
          var d := HexQuad(s[7..]);
          if d.None? || !(0xDC00 <= d.value < 0xE000) then None else Some((EncodePair(c.value, d.value), 11))
      else Some((EncodeRune(c.value), 5))
    else if ShortEscape(s[0]).None? then None
    else Some(([ShortEscape(s[0]).value], 1))
  }

  /** A string after its opening quote: its text, and what follows the closing quote. */
  function StringBody(s: Bytes): (r: Option<(Bytes, Bytes)>)
    ensures r.Some? ==> |r.value.1| < |s|
  {
    if s == [] then None
    else if s[0] == QUOTE then Some(([], s[1..]))
    else if s[0] == BACKSLASH then
      var e := Escape(s[1..]);
      if e.None? then None else Before(e.value.0, StringBody(s[1 + e.value.1..]))
    else if s[0] < 0x20 then None
    else if s[0] < 0x80 then Before([s[0]], StringBody(s[1..]))
    else if RuneLen(s) == 0 then None
    else Before(s[..RuneLen(s)], StringBody(s[RuneLen(s)..]))
  }

  function Before(head: Bytes, r: Option<(Bytes, Bytes)>): Option<(Bytes, Bytes)>
  {
    if r.None? then None else Some((head + r.value.0, r.value.1))
  }

  // ---- values ----

  datatype Parsed<T> = Ok(value: T, rest: Bytes, nodes: nat) | Bad

  function Literal(s: Bytes, lit: Bytes, v: Value, nodes: nat): (r: Parsed<Value>)
    requires lit != []
    ensures r.Ok? ==> |r.rest| < |s|
  {
    if |lit| <= |s| && s[..|lit|] == lit then Ok(v, s[|lit|..], nodes + 1) else Bad
  }

  function ParseScalar(b: Budget, s: Bytes, nodes: nat): (r: Parsed<Value>)
    requires s != []
    ensures r.Ok? ==> |r.rest| < |s|
  {
    if s[0] == 110 then Literal(s, NULL, Null, nodes)
    else if s[0] == 116 then Literal(s, TRUE, Bool(true), nodes)
    else if s[0] == 102 then Literal(s, FALSE, Bool(false), nodes)
    else if s[0] == QUOTE then
      var t := StringBody(s[1..]);
      if t.None? then Bad else Ok(Str(t.value.0), t.value.1, nodes + 1)
    else
      var n := NumberLen(s);
      if n.None? || !b.numberFits(s[..n.value]) then Bad else Ok(Number(s[..n.value]), s[n.value..], nodes + 1)
  }

  function ParseValue(b: Budget, s: Bytes, depth: nat, nodes: nat): (r: Parsed<Value>)
    ensures r.Ok? ==> |r.rest| < |s|
    decreases |s|, 0
  {
    if nodes >= b.maxNodes || s == [] then Bad
    else if s[0] == OPEN_ARRAY then
      if depth >= b.maxDepth then Bad
      else
        var t := SkipSpace(s[1..]);
        if t != [] && t[0] == CLOSE_ARRAY then Ok(Array([]), t[1..], nodes + 1)
        else
          var r := ParseItems(b, t, depth + 1, nodes + 1);
          if r.Bad? then Bad else Ok(Array(r.value), r.rest, r.nodes)
    else if s[0] == OPEN_OBJECT then
      if depth >= b.maxDepth then Bad
      else
        var t := SkipSpace(s[1..]);
        if t != [] && t[0] == CLOSE_OBJECT then Ok(Object([]), t[1..], nodes + 1)
        else
          var r := ParseMembers(b, t, depth + 1, nodes + 1, {});
          if r.Bad? then Bad else Ok(Object(r.value), r.rest, r.nodes)
    else ParseScalar(b, s, nodes)
  }

  /** The elements of an array up to and with its closing bracket. */
  function ParseItems(b: Budget, s: Bytes, depth: nat, nodes: nat): (r: Parsed<seq<Value>>)
    ensures r.Ok? ==> |r.rest| < |s|
    decreases |s|, 1
  {
    var v := ParseValue(b, SkipSpace(s), depth, nodes);
    if v.Bad? then Bad
    else
      var t := SkipSpace(v.rest);
      if t == [] then Bad
      else if t[0] == CLOSE_ARRAY then Ok([v.value], t[1..], v.nodes)
      else if t[0] != COMMA then Bad
      else
        var r := ParseItems(b, t[1..], depth, v.nodes);
        if r.Bad? then Bad else Ok([v.value] + r.value, r.rest, r.nodes)
  }

  /** The members of an object up to and with its closing brace; no key may come twice. */
  function ParseMembers(b: Budget, s: Bytes, depth: nat, nodes: nat, seen: set<Bytes>): (r: Parsed<seq<Member>>)
    ensures r.Ok? ==> |r.rest| < |s|
    decreases |s|, 1
  {
    var k := ParseKey(b, SkipSpace(s), nodes);
    if k.Bad? || k.value in seen then Bad
    else
      var v := ParseValue(b, k.rest, depth, k.nodes);
      if v.Bad? then Bad
      else
        var t := SkipSpace(v.rest);
        if t == [] then Bad
        else if t[0] == CLOSE_OBJECT then Ok([Member(k.value, v.value)], t[1..], v.nodes)
        else if t[0] != COMMA then Bad
        else
          var r := ParseMembers(b, t[1..], depth, v.nodes, seen + {k.value});
          if r.Bad? then Bad else Ok([Member(k.value, v.value)] + r.value, r.rest, r.nodes)
  }

  /** A key, its colon and the space after it. */
  function ParseKey(b: Budget, s: Bytes, nodes: nat): (r: Parsed<Bytes>)
    ensures r.Ok? ==> |r.rest| < |s|
  {
    if s == [] || s[0] != QUOTE || nodes >= b.maxNodes then Bad
    else
      var k := StringBody(s[1..]);
      if k.None? then Bad
      else
        var t := SkipSpace(k.value.1);
        if t == [] || t[0] != COLON then Bad else Ok(k.value.0, SkipSpace(t[1..]), nodes + 1)
  }

  /** Exactly one value, with space around it. */
  function Parse(b: Budget, raw: Bytes): Option<Value>
  {
    var r := ParseValue(b, SkipSpace(raw), 0, 0);
    if r.Ok? && SkipSpace(r.rest) == [] then Some(r.value) else None
  }

  // ---- printing ----

  function StringText(s: Bytes): Bytes
  {
    if s == [] then [] else (if s[0] >= 0x80 || Plain(s[0]) then [s[0]] else EscapeByte(s[0])) + StringText(s[1..])
  }

  function Quoted(s: Bytes): Bytes
  {
    [QUOTE] + StringText(s) + [QUOTE]
  }

  /** A value as it stands, without any space. */
  function Print(v: Value): Bytes
    decreases v
  {
    match v
    case Null => NULL
    case Bool(b) => if b then TRUE else FALSE
    case Number(lexeme) => lexeme
    case Str(text) => Quoted(text)
    case Array(items) => [OPEN_ARRAY] + PrintItems(items) + [CLOSE_ARRAY]
    case Object(members) => [OPEN_OBJECT] + PrintMembers(members) + [CLOSE_OBJECT]
  }

  function PrintItems(items: seq<Value>): Bytes
    decreases items
  {
    if items == [] then []
    else if |items| == 1 then Print(items[0])
    else Print(items[0]) + [COMMA] + PrintItems(items[1..])
  }

  function PrintMember(m: Member): Bytes
    decreases m
  {
    Quoted(m.key) + [COLON] + Print(m.value)
  }

  function PrintMembers(members: seq<Member>): Bytes
    decreases members
  {
    if members == [] then []
    else if |members| == 1 then PrintMember(members[0])
    else PrintMember(members[0]) + [COMMA] + PrintMembers(members[1..])
  }

  // ---- well-formed values and what they cost ----

  ghost predicate WellFormed(b: Budget, v: Value)
    decreases v
  {
    match v
    case Null => true
    case Bool(_) => true
    case Number(lexeme) => NumberLen(lexeme) == Some(|lexeme|) && b.numberFits(lexeme)
    case Str(text) => Utf8.Valid(text)
    case Array(items) => WellFormedItems(b, items)
    case Object(members) => WellFormedMembers(b, members, {})
  }

  ghost predicate WellFormedItems(b: Budget, items: seq<Value>)
    decreases items
  {
    items == [] || (WellFormed(b, items[0]) && WellFormedItems(b, items[1..]))
  }

  ghost predicate WellFormedMembers(b: Budget, members: seq<Member>, seen: set<Bytes>)
    decreases members
  {
    members == [] || (
      && Utf8.Valid(members[0].key) && members[0].key !in seen && WellFormed(b, members[0].value)
      && WellFormedMembers(b, members[1..], seen + {members[0].key}))
  }

  function Max(a: nat, b: nat): nat { if a < b then b else a }

  function Depth(v: Value): nat
    decreases v
  {
    match v
    case Array(items) => 1 + DepthItems(items)
    case Object(members) => 1 + DepthMembers(members)
    case _ => 0
  }

  function DepthItems(items: seq<Value>): nat
    decreases items
  {
    if items == [] then 0 else Max(Depth(items[0]), DepthItems(items[1..]))
  }

  function DepthMembers(members: seq<Member>): nat
    decreases members
  {
    if members == [] then 0 else Max(Depth(members[0].value), DepthMembers(members[1..]))
  }

  function Nodes(v: Value): nat
    decreases v
  {
    match v
    case Array(items) => 1 + NodesItems(items)
    case Object(members) => 1 + NodesMembers(members)
    case _ => 1
  }

  function NodesItems(items: seq<Value>): nat
    decreases items
  {
    if items == [] then 0 else Nodes(items[0]) + NodesItems(items[1..])
  }

  function NodesMembers(members: seq<Member>): nat
    decreases members
  {
    if members == [] then 0 else 1 + Nodes(members[0].value) + NodesMembers(members[1..])
  }
}
