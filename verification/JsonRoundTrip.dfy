/** Printing and parsing are inverse: what the parser accepts is well formed and within its
    budgets, and the print of a well-formed value parses back to that value
    (internal/jsonvalue/parse.go:72-472, internal/jsonvalue/canon.go:75-102). */
module JsonRoundTrip {
  import opened Utf8
  import opened Wrappers
  import opened Wire
  import opened Json

  // ---- numbers end where they end ----

  lemma {:induction false} DigitsAppend(s: Bytes, rest: Bytes)
    requires rest == [] || !Digit(rest[0])
    ensures Digits(s + rest) == Digits(s)
  {
    if s == [] {
      assert s + rest == rest;
    } else if Digit(s[0]) {
      assert (s + rest)[1..] == s[1..] + rest;
      DigitsAppend(s[1..], rest);
    }
  }

  lemma {:induction false} DigitsPrefix(s: Bytes, k: nat)
    requires Digits(s) <= k <= |s|
    ensures Digits(s[..k]) == Digits(s)
  {
    if s != [] && Digit(s[0]) {
      assert s[..k][1..] == s[1..][..k - 1];
      DigitsPrefix(s[1..], k - 1);
    }
  }

  /** Nothing that would go on with a number. */
  predicate Ends(rest: Bytes)
  {
    rest == [] || (!Digit(rest[0]) && rest[0] != 46 && rest[0] != 101 && rest[0] != 69)
  }

  lemma IntAppend(s: Bytes, rest: Bytes)
    requires Ends(rest)
    ensures IntLen(s).Some? ==> IntLen(s + rest) == IntLen(s)
  {
    DigitsAppend(s, rest);
  }

  lemma FracAppend(s: Bytes, rest: Bytes)
    requires Ends(rest)
    ensures FracLen(s).Some? ==> FracLen(s + rest) == FracLen(s)
  {
    if s == [] {
      assert s + rest == rest;
    } else {
      assert (s + rest)[1..] == s[1..] + rest;
      DigitsAppend(s[1..], rest);
    }
  }

  lemma ExpAppend(s: Bytes, rest: Bytes)
    requires Ends(rest)
    ensures ExpLen(s).Some? ==> ExpLen(s + rest) == ExpLen(s)
  {
    if s == [] {
      assert s + rest == rest;
    } else if |s| > 1 {
      assert (s + rest)[1..] == s[1..] + rest && (s + rest)[2..] == s[2..] + rest;
      DigitsAppend(s[1..], rest);
      DigitsAppend(s[2..], rest);
    }
  }

  /** A number is read in full and no further. */
  lemma NumberAppend(l: Bytes, rest: Bytes)
    requires NumberLen(l) == Some(|l|) && Ends(rest)
    ensures NumberLen(l + rest) == Some(|l|)
  {
    hide IntLen, FracLen, ExpLen;
    var s := l + rest;
    var a := SignLen(l);
    var i := IntLen(l[a..]).value;
    var f := FracLen(l[a + i..]).value;
    assert s[a..] == l[a..] + rest;
    assert s[a + i..] == l[a + i..] + rest;
    assert s[a + i + f..] == l[a + i + f..] + rest;
    IntAppend(l[a..], rest);
    FracAppend(l[a + i..], rest);
    ExpAppend(l[a + i + f..], rest);
  }

  lemma IntPrefix(s: Bytes, k: nat)
    requires IntLen(s).Some? && IntLen(s).value <= k <= |s|
    ensures IntLen(s[..k]) == IntLen(s)
  {
    DigitsPrefix(s, k);
  }

  lemma FracPrefix(s: Bytes, k: nat)
    requires FracLen(s).Some? && FracLen(s).value <= k <= |s|
    ensures FracLen(s[..k]) == FracLen(s)
  {
    if s != [] && k > 0 {
      assert s[..k][1..] == s[1..][..k - 1];
      if s[0] == 46 {
        DigitsPrefix(s[1..], k - 1);
      }
    }
  }

  lemma ExpPrefix(s: Bytes, k: nat)
    requires ExpLen(s).Some? && ExpLen(s).value == k
    ensures ExpLen(s[..k]) == Some(k)
  {
    if k > 0 {
      var sign := if |s| > 1 && (s[1] == 43 || s[1] == 45) then 1 else 0;
      assert s[..k][1 + sign..] == s[1 + sign..][..k - 1 - sign];
      DigitsPrefix(s[1 + sign..], k - 1 - sign);
      assert s[..k][0] == s[0] && s[..k][1] == s[1];
    }
  }

  /** The text taken for a number is a number by itself. */
  lemma NumberPrefix(s: Bytes, n: nat)
    requires NumberLen(s) == Some(n)
    ensures NumberLen(s[..n]) == Some(n)
  {
    hide IntLen, FracLen, ExpLen;
    var l := s[..n];
    var a := SignLen(s);
    var i := IntLen(s[a..]).value;
    var f := FracLen(s[a + i..]).value;
    assert l[a..] == s[a..][..n - a];
    assert l[a + i..] == s[a + i..][..n - a - i];
    assert l[a + i + f..] == s[a + i + f..][..n - a - i - f];
    assert SignLen(l) == a;
    IntPrefix(s[a..], n - a);
    FracPrefix(s[a + i..], n - a - i);
    ExpPrefix(s[a + i + f..], n - a - i - f);
  }

  // ---- strings ----

  lemma {:induction false} CopyText(s: Bytes, n: nat)
    requires n <= |s| && forall i :: 0 <= i < n ==> s[i] >= 0x80
    ensures StringText(s) == s[..n] + StringText(s[n..])
  {
    if n == 0 {
      assert s[0..] == s && s[..0] == [];
    } else {
      assert forall i :: 0 <= i < n - 1 ==> s[1..][i] == s[i + 1];
      CopyText(s[1..], n - 1);
      assert s[1..][n - 1..] == s[n..];
      assert [s[0]] + s[1..][..n - 1] == s[..n];
      Assoc([s[0]], s[1..][..n - 1], StringText(s[n..]));
    }
  }

  lemma ReadEscape(b: byte, rest: Bytes)
    requires b < 0x80 && !Plain(b)
    ensures StringBody(EscapeByte(b) + rest) == Before([b], StringBody(rest))
  {
    hide StringBody;
    var e := EscapeByte(b);
    var s := e + rest;
    assert forall i :: 0 <= i < |e| ==> s[i] == e[i];
    assert s[0] == BACKSLASH;
    assert s[1..] == e[1..] + rest;
    EscapeMeans(b, rest);
    assert s[|e|..] == rest;
    ReadBackslash(s);
  }

  lemma ReadBackslash(s: Bytes)
    requires s != [] && s[0] == BACKSLASH && Json.Escape(s[1..]).Some?
    ensures StringBody(s) == Before(Json.Escape(s[1..]).value.0, StringBody(s[1 + Json.Escape(s[1..]).value.1..]))
  {
  }

  lemma EscapeMeans(b: byte, rest: Bytes)
    requires b < 0x80 && !Plain(b)
    ensures Json.Escape(EscapeByte(b)[1..] + rest) == Some(([b], |EscapeByte(b)| - 1))
  {
    var e := EscapeByte(b)[1..];
    var s := e + rest;
    assert forall i :: 0 <= i < |e| ==> s[i] == e[i];
    if |e| == 5 {
      assert forall i :: 0 <= i < 4 ==> s[1..][i] == e[i + 1];
      assert HexQuad(s[1..]) == Some(b);
      assert EncodeRune(b) == [b];
    }
  }

  /** A printed string reads back as it was. */
  lemma {:induction false} StringReads(s: Bytes, rest: Bytes)
    requires Utf8.Valid(s)
    ensures StringBody(StringText(s) + [QUOTE] + rest) == Some((s, rest))
  {
    if s == [] {
      assert StringText(s) + [QUOTE] + rest == [QUOTE] + rest;
      assert ([QUOTE] + rest)[1..] == rest;
    } else {
      hide StringBody, StringText, RuneLen;
      ValidStep(s);
      StringReads(s[RuneLen(s)..], rest);
      FirstReads(s, RuneLen(s), rest);
    }
  }

  lemma FirstReads(s: Bytes, n: nat, rest: Bytes)
    requires s != [] && n == RuneLen(s) > 0
    requires StringBody(StringText(s[n..]) + [QUOTE] + rest) == Some((s[n..], rest))
    ensures StringBody(StringText(s) + [QUOTE] + rest) == Some((s, rest))
  {
    hide StringBody, StringText, RuneLen, StepText;
    var tail := StringText(s[n..]) + [QUOTE] + rest;
    FirstRune(s, n);
    Assoc(StepText(s, n), StringText(s[n..]), [QUOTE]);
    Assoc(StepText(s, n), StringText(s[n..]) + [QUOTE], rest);
    ReadRune(s, n, tail);
    assert s == s[..n] + s[n..];
  }

  /** What the first character prints as. */
  function StepText(s: Bytes, n: nat): Bytes
    requires 0 < n <= |s|
  {
    if s[0] < 0x80 && !Plain(s[0]) then EscapeByte(s[0]) else s[..n]
  }

  lemma FirstRune(s: Bytes, n: nat)
    requires s != [] && n == RuneLen(s) > 0
    ensures StringText(s) == StepText(s, n) + StringText(s[n..])
  {
    if s[0] >= 0x80 {
      RuneBytes(s);
      CopyText(s, n);
    } else {
      assert n == 1 && s[..1] == [s[0]];
    }
  }

  lemma ReadRune(s: Bytes, n: nat, tail: Bytes)
    requires s != [] && n == RuneLen(s) > 0
    ensures StringBody(StepText(s, n) + tail) == Before(s[..n], StringBody(tail))
  {
    hide StringBody;
    if s[0] < 0x80 {
      assert n == 1 && s[..1] == [s[0]];
      if Plain(s[0]) {
        ReadPlain(s[0], tail);
      } else {
        ReadEscape(s[0], tail);
      }
    } else {
      RuneAgain(s, n);
      RuneOfPrefix(s[..n], tail);
      ReadMultibyte(s[..n], tail);
    }
  }

  lemma ReadPlain(b: byte, tail: Bytes)
    requires Plain(b)
    ensures StringBody([b] + tail) == Before([b], StringBody(tail))
  {
    assert ([b] + tail)[1..] == tail;
  }

  lemma RuneAgain(s: Bytes, n: nat)
    requires n == RuneLen(s) > 0
    ensures RuneLen(s[..n]) == n
  {
  }

  lemma ReadMultibyte(r: Bytes, tail: Bytes)
    requires r != [] && r[0] >= 0x80 && RuneLen(r + tail) == |r|
    ensures StringBody(r + tail) == Before(r, StringBody(tail))
  {
    var s := r + tail;
    assert s[..|r|] == r && s[|r|..] == tail;
  }

  lemma EncodedValid(c: nat)
    requires c < 0x10000 && !(0xD800 <= c < 0xE000)
    ensures Utf8.Valid(EncodeRune(c))
  {
    var e := EncodeRune(c);
    assert RuneLen(e) == |e|;
    assert e[|e|..] == [];
  }

  lemma PairValid(high: nat, low: nat)
    requires 0xD800 <= high < 0xDC00 && 0xDC00 <= low < 0xE000
    ensures Utf8.Valid(EncodePair(high, low))
  {
    var e := EncodePair(high, low);
    PairLeads(high, low);
    assert RuneLen(e) == 4;
    assert e[4..] == [];
  }

  lemma PairLeads(high: nat, low: nat)
    requires 0xD800 <= high < 0xDC00 && 0xDC00 <= low < 0xE000
    ensures var e := EncodePair(high, low); |e| == 4 && Announced(e[0]) == 4 && SecondFits(e[0], e[1]) && Continues(e[2]) && Continues(e[3])
  {
    var c := 0x10000 + (high - 0xD800) * 0x400 + (low - 0xDC00);
    assert 0x10000 <= c < 0x110000;
    if c / 0x40000 == 0 {
      assert c / 0x1000 >= 16;
    }
    if c / 0x40000 == 4 {
      assert c / 0x1000 % 64 < 16;
    }
  }

  lemma EscapeValid(s: Bytes)
    ensures Json.Escape(s).Some? ==> Utf8.Valid(Json.Escape(s).value.0)
  {
    hide EncodeRune, EncodePair, Utf8.Valid, HexQuad;
    if Json.Escape(s).Some? {
      if s[0] == 117 {
        var c := HexQuad(s[1..]).value;
        if 0xD800 <= c < 0xDC00 {
          PairValid(c, HexQuad(s[7..]).value);
        } else {
          EncodedValid(c);
        }
      } else {
        AsciiOne(ShortEscape(s[0]).value);
      }
    }
  }

  lemma AsciiOne(b: byte)
    requires b < 0x80
    ensures Utf8.Valid([b])
  {
    assert RuneLen([b]) == 1 && [b][1..] == [];
  }

  /** Whatever string is read is valid text. */
  lemma {:induction false} StringValid(s: Bytes)
    ensures StringBody(s).Some? ==> Utf8.Valid(StringBody(s).value.0)
  {
    hide Utf8.Valid, RuneLen, Json.Escape;
    if StringBody(s).Some? {
      if s[0] == QUOTE {
        NothingValid([]);
      } else if s[0] == BACKSLASH {
        EscapeValid(s[1..]);
        var e := Json.Escape(s[1..]).value;
        StringValid(s[1 + e.1..]);
        ValidConcat(e.0, StringBody(s[1 + e.1..]).value.0);
      } else if s[0] < 0x80 {
        AsciiOne(s[0]);
        StringValid(s[1..]);
        ValidConcat([s[0]], StringBody(s[1..]).value.0);
      } else {
        OneRune(s);
        StringValid(s[RuneLen(s)..]);
        ValidConcat(s[..RuneLen(s)], StringBody(s[RuneLen(s)..]).value.0);
      }
    }
  }

  // ---- what is printed reads back ----

  /** What may follow a value inside a canonical text. */
  predicate Delimited(rest: Bytes)
  {
    rest == [] || rest[0] == COMMA || rest[0] == CLOSE_ARRAY || rest[0] == CLOSE_OBJECT
  }

  predicate Scalar(v: Value)
  {
    !v.Array? && !v.Object?
  }

  lemma NumberStarts(l: Bytes)
    requires NumberLen(l).Some?
    ensures l != [] && (l[0] == 45 || Digit(l[0]))
  {
  }

  /** No print starts like a space or a closing bracket. */
  lemma PrintStarts(b: Budget, v: Value)
    requires WellFormed(b, v)
    ensures Print(v) != [] && !Space(Print(v)[0]) && Print(v)[0] != CLOSE_ARRAY && Print(v)[0] != CLOSE_OBJECT
    ensures Scalar(v) ==> Print(v)[0] != OPEN_ARRAY && Print(v)[0] != OPEN_OBJECT
  {
    hide NumberLen, StringText, Utf8.Valid;
    if v.Number? {
      NumberStarts(v.lexeme);
    }
  }

  lemma ScalarReads(b: Budget, v: Value, rest: Bytes, nodes: nat)
    requires Scalar(v) && WellFormed(b, v) && (v.Number? ==> Delimited(rest))
    ensures Print(v) != [] && ParseScalar(b, Print(v) + rest, nodes) == Ok(v, rest, nodes + 1)
  {
    hide NumberLen, StringText, StringBody, Utf8.Valid;
    var s := Print(v) + rest;
    match v
    case Null => assert s[..4] == NULL && s[4..] == rest;
    case Bool(x) =>
      if x { assert s[..4] == TRUE && s[4..] == rest; } else { assert s[..5] == FALSE && s[5..] == rest; }
    case Number(l) =>
      NumberStarts(l);
      NumberAppend(l, rest);
      assert s[..|l|] == l && s[|l|..] == rest;
    case Str(text) =>
      StringReads(text, rest);
      assert s[1..] == StringText(text) + [QUOTE] + rest;
  }

  lemma NoSkip(s: Bytes)
    requires s == [] || !Space(s[0])
    ensures SkipSpace(s) == s
  {
  }

  lemma ArrayReads(b: Budget, items: seq<Value>, rest: Bytes, depth: nat, nodes: nat)
    requires nodes < b.maxNodes && depth < b.maxDepth && WellFormedItems(b, items)
    requires items != [] ==> ParseItems(b, PrintItems(items) + [CLOSE_ARRAY] + rest, depth + 1, nodes + 1) == Ok(items, rest, nodes + 1 + NodesItems(items))
    ensures ParseValue(b, Print(Array(items)) + rest, depth, nodes) == Ok(Array(items), rest, nodes + Nodes(Array(items)))
  {
    hide ParseItems, PrintItems;
    var s := Print(Array(items)) + rest;
    var inner := PrintItems(items) + [CLOSE_ARRAY] + rest;
    assert s[0] == OPEN_ARRAY && s[1..] == inner;
    ItemsStart(b, items, rest);
    NoSkip(inner);
    if items == [] {
      assert inner[1..] == rest;
    }
  }

  lemma ItemsStart(b: Budget, items: seq<Value>, rest: Bytes)
    requires WellFormedItems(b, items)
    ensures var inner := PrintItems(items) + [CLOSE_ARRAY] + rest;
      && inner != [] && !Space(inner[0])
      && (if items == [] then PrintItems(items) == [] && inner[0] == CLOSE_ARRAY else inner[0] != CLOSE_ARRAY)
  {
    if items != [] {
      PrintStarts(b, items[0]);
      hide Print;
    }
  }

  lemma {:induction false} PrintReads(b: Budget, v: Value, rest: Bytes, depth: nat, nodes: nat)
    requires WellFormed(b, v) && (v.Number? ==> Delimited(rest)) && depth + Depth(v) <= b.maxDepth && nodes + Nodes(v) <= b.maxNodes
    ensures ParseValue(b, Print(v) + rest, depth, nodes) == Ok(v, rest, nodes + Nodes(v))
    decreases v, 1
  {
    hide *;
    match v
    case Array(items) =>
      ArrayFacts(b, items);
      if items != [] {
        ItemsRead(b, items, rest, depth + 1, nodes + 1);
      }
      ArrayReads(b, items, rest, depth, nodes);
    case Object(members) =>
      ObjectFacts(b, members);
      if members != [] {
        MembersRead(b, members, rest, depth + 1, nodes + 1, {});
      }
      ObjectReads(b, members, rest, depth, nodes);
    case _ =>
      ScalarValue(b, v, rest, depth, nodes);
  }

  lemma ArrayFacts(b: Budget, items: seq<Value>)
    ensures WellFormed(b, Array(items)) <==> WellFormedItems(b, items)
    ensures Depth(Array(items)) == 1 + DepthItems(items) && Nodes(Array(items)) == 1 + NodesItems(items)
  {
  }

  lemma ObjectFacts(b: Budget, members: seq<Member>)
    ensures WellFormed(b, Object(members)) <==> WellFormedMembers(b, members, {})
    ensures Depth(Object(members)) == 1 + DepthMembers(members) && Nodes(Object(members)) == 1 + NodesMembers(members)
  {
  }

  lemma ScalarValue(b: Budget, v: Value, rest: Bytes, depth: nat, nodes: nat)
    requires !v.Array? && !v.Object? && WellFormed(b, v) && (v.Number? ==> Delimited(rest)) && nodes + Nodes(v) <= b.maxNodes
    ensures ParseValue(b, Print(v) + rest, depth, nodes) == Ok(v, rest, nodes + Nodes(v))
  {
    PrintStarts(b, v);
    ScalarReads(b, v, rest, nodes);
    hide ParseScalar, Print, WellFormed;
    assert (Print(v) + rest)[0] == Print(v)[0];
  }

  lemma {:induction false} ItemsRead(b: Budget, items: seq<Value>, rest: Bytes, depth: nat, nodes: nat)
    requires items != [] && WellFormedItems(b, items) && depth + DepthItems(items) <= b.maxDepth && nodes + NodesItems(items) <= b.maxNodes
    ensures ParseItems(b, PrintItems(items) + [CLOSE_ARRAY] + rest, depth, nodes) == Ok(items, rest, nodes + NodesItems(items))
    decreases items, 0
  {
    hide *;
    var v := items[0];
    var tail := PrintItems(items[1..]) + [CLOSE_ARRAY] + rest;
    var more := if |items| == 1 then [CLOSE_ARRAY] + rest else [COMMA] + tail;
    ItemsFacts(b, items);
    ItemsSplit(items, rest);
    IsDelimited(more);
    PrintReads(b, v, more, depth, nodes);
    PrintStarts(b, v);
    var s := Print(v) + more;
    assert s[0] == Print(v)[0];
    ItemsUnfold(b, s, v, more, depth, nodes, nodes + Nodes(v));
    if |items| > 1 {
      assert more[1..] == tail;
      ItemsRead(b, items[1..], rest, depth, nodes + Nodes(v));
    } else {
      assert more[1..] == rest;
    }
  }

  lemma IsDelimited(more: Bytes)
    requires more != [] && (more[0] == COMMA || more[0] == CLOSE_ARRAY || more[0] == CLOSE_OBJECT)
    ensures Delimited(more) && !Space(more[0])
  {
  }

  lemma ItemsFacts(b: Budget, items: seq<Value>)
    requires items != [] && WellFormedItems(b, items)
    ensures WellFormed(b, items[0]) && WellFormedItems(b, items[1..])
    ensures Depth(items[0]) <= DepthItems(items) && DepthItems(items[1..]) <= DepthItems(items)
    ensures NodesItems(items) == Nodes(items[0]) + NodesItems(items[1..])
    ensures items == [items[0]] + items[1..] && (|items| == 1 ==> items == [items[0]] && NodesItems(items[1..]) == 0)
  {
    hide WellFormed, Depth, Nodes;
  }

  lemma Regroup(a: Bytes, b: Bytes, c: Bytes, d: Bytes, e: Bytes)
    ensures a + b + c + d + e == a + (b + (c + d + e))
  {
    Assoc(a, b, c);
    Assoc(a, b + c, d);
    Assoc(a, b + c + d, e);
    Assoc(b, c, d);
    Assoc(b, c + d, e);
  }

  lemma ItemsSplit(items: seq<Value>, rest: Bytes)
    requires items != []
    ensures PrintItems(items) + [CLOSE_ARRAY] + rest
      == Print(items[0]) + if |items| == 1 then [CLOSE_ARRAY] + rest else [COMMA] + (PrintItems(items[1..]) + [CLOSE_ARRAY] + rest)
  {
    PrintItemsIs(items);
    hide Print, PrintItems;
    if |items| > 1 {
      Regroup(Print(items[0]), [COMMA], PrintItems(items[1..]), [CLOSE_ARRAY], rest);
    } else {
      Assoc(Print(items[0]), [CLOSE_ARRAY], rest);
    }
  }

  lemma PrintItemsIs(items: seq<Value>)
    requires items != []
    ensures PrintItems(items) == if |items| == 1 then Print(items[0]) else Print(items[0]) + [COMMA] + PrintItems(items[1..])
  {
    hide Print;
  }

  /** One turn of the element loop. */
  lemma ItemsUnfold(b: Budget, s: Bytes, v: Value, more: Bytes, depth: nat, nodes: nat, next: nat)
    requires s != [] && !Space(s[0]) && ParseValue(b, s, depth, nodes) == Ok(v, more, next) && more != [] && !Space(more[0])
    ensures more[0] == CLOSE_ARRAY ==> ParseItems(b, s, depth, nodes) == Ok([v], more[1..], next)
    ensures var r := ParseItems(b, more[1..], depth, next);
      more[0] == COMMA && r.Ok? ==> ParseItems(b, s, depth, nodes) == Ok([v] + r.value, r.rest, r.nodes)
  {
    NoSkip(s);
    NoSkip(more);
    hide ParseValue;
  }

  // ---- members ----

  lemma ObjectReads(b: Budget, members: seq<Member>, rest: Bytes, depth: nat, nodes: nat)
    requires nodes < b.maxNodes && depth < b.maxDepth
    requires members != [] ==>
      ParseMembers(b, PrintMembers(members) + [CLOSE_OBJECT] + rest, depth + 1, nodes + 1, {}) == Ok(members, rest, nodes + 1 + NodesMembers(members))
    ensures ParseValue(b, Print(Object(members)) + rest, depth, nodes) == Ok(Object(members), rest, nodes + Nodes(Object(members)))
  {
    hide ParseMembers, PrintMembers;
    var s := Print(Object(members)) + rest;
    var inner := PrintMembers(members) + [CLOSE_OBJECT] + rest;
    assert s[0] == OPEN_OBJECT && s[1..] == inner;
    MembersStart(members, rest);
    NoSkip(inner);
    if members == [] {
      assert inner[1..] == rest;
    }
  }

  lemma MembersStart(members: seq<Member>, rest: Bytes)
    ensures var inner := PrintMembers(members) + [CLOSE_OBJECT] + rest;
      && inner != [] && !Space(inner[0])
      && (if members == [] then PrintMembers(members) == [] && inner[0] == CLOSE_OBJECT else inner[0] != CLOSE_OBJECT)
  {
    hide Print;
  }

  lemma KeyReads(b: Budget, key: Bytes, more: Bytes, nodes: nat)
    requires Utf8.Valid(key) && nodes < b.maxNodes && (more == [] || !Space(more[0]))
    ensures ParseKey(b, Quoted(key) + [COLON] + more, nodes) == Ok(key, more, nodes + 1)
  {
    hide StringText, StringBody;
    var s := Quoted(key) + [COLON] + more;
    StringReads(key, [COLON] + more);
    assert s[1..] == StringText(key) + [QUOTE] + ([COLON] + more);
    NoSkip([COLON] + more);
    assert ([COLON] + more)[1..] == more;
    NoSkip(more);
  }

  lemma {:induction false} MembersRead(b: Budget, members: seq<Member>, rest: Bytes, depth: nat, nodes: nat, seen: set<Bytes>)
    requires members != [] && WellFormedMembers(b, members, seen)
    requires depth + DepthMembers(members) <= b.maxDepth && nodes + NodesMembers(members) <= b.maxNodes
    ensures ParseMembers(b, PrintMembers(members) + [CLOSE_OBJECT] + rest, depth, nodes, seen) == Ok(members, rest, nodes + NodesMembers(members))
    decreases members, 0
  {
    hide *;
    var m := members[0];
    var tail := PrintMembers(members[1..]) + [CLOSE_OBJECT] + rest;
    var more := if |members| == 1 then [CLOSE_OBJECT] + rest else [COMMA] + tail;
    MembersFacts(b, members, seen);
    MembersSplit(members, rest);
    IsDelimited(more);
    PrintReads(b, m.value, more, depth, nodes + 1);
    PrintStarts(b, m.value);
    var text := Print(m.value) + more;
    assert text[0] == Print(m.value)[0];
    KeyReads(b, m.key, text, nodes);
    QuotedStarts(m.key, [COLON] + text);
    var s := Quoted(m.key) + [COLON] + text;
    Assoc(Quoted(m.key), [COLON], text);
    MembersUnfold(b, s, m, text, more, depth, nodes, nodes + 1, nodes + 1 + Nodes(m.value), seen);
    if |members| > 1 {
      assert more[1..] == tail;
      MembersRead(b, members[1..], rest, depth, nodes + 1 + Nodes(m.value), seen + {m.key});
    } else {
      assert more[1..] == rest;
    }
  }

  lemma QuotedStarts(key: Bytes, more: Bytes)
    ensures Quoted(key) + more != [] && (Quoted(key) + more)[0] == QUOTE && !Space(QUOTE)
  {
  }

  lemma MembersFacts(b: Budget, members: seq<Member>, seen: set<Bytes>)
    requires members != [] && WellFormedMembers(b, members, seen)
    ensures Utf8.Valid(members[0].key) && members[0].key !in seen && WellFormed(b, members[0].value)
    ensures WellFormedMembers(b, members[1..], seen + {members[0].key})
    ensures Depth(members[0].value) <= DepthMembers(members) && DepthMembers(members[1..]) <= DepthMembers(members)
    ensures NodesMembers(members) == 1 + Nodes(members[0].value) + NodesMembers(members[1..])
    ensures members == [members[0]] + members[1..] && (|members| == 1 ==> members == [members[0]] && NodesMembers(members[1..]) == 0)
  {
    hide WellFormed, Depth, Nodes, Utf8.Valid;
  }

  lemma PrintMembersIs(members: seq<Member>)
    requires members != []
    ensures PrintMembers(members)
      == if |members| == 1 then PrintMember(members[0]) else PrintMember(members[0]) + [COMMA] + PrintMembers(members[1..])
  {
    hide PrintMember;
  }

  lemma MembersSplit(members: seq<Member>, rest: Bytes)
    requires members != []
    ensures var m := members[0];
      PrintMembers(members) + [CLOSE_OBJECT] + rest
      == Quoted(m.key) + [COLON] + (Print(m.value) + if |members| == 1 then [CLOSE_OBJECT] + rest else [COMMA] + (PrintMembers(members[1..]) + [CLOSE_OBJECT] + rest))
  {
    PrintMembersIs(members);
    hide Print, Quoted, PrintMembers;
    var m := members[0];
    var k, v := Quoted(m.key) + [COLON], Print(m.value);
    if |members| > 1 {
      var d := PrintMembers(members[1..]);
      Regroup(k + v, [COMMA], d, [CLOSE_OBJECT], rest);
      Assoc(k, v, [COMMA] + (d + [CLOSE_OBJECT] + rest));
    } else {
      Assoc(k + v, [CLOSE_OBJECT], rest);
      Assoc(k, v, [CLOSE_OBJECT] + rest);
    }
  }

  /** One turn of the member loop. */
  lemma MembersUnfold(b: Budget, s: Bytes, m: Member, text: Bytes, more: Bytes, depth: nat, nodes: nat, keyed: nat, next: nat, seen: set<Bytes>)
    requires s != [] && !Space(s[0]) && ParseKey(b, s, nodes) == Ok(m.key, text, keyed) && m.key !in seen
    requires ParseValue(b, text, depth, keyed) == Ok(m.value, more, next) && more != [] && !Space(more[0])
    ensures more[0] == CLOSE_OBJECT ==> ParseMembers(b, s, depth, nodes, seen) == Ok([m], more[1..], next)
    ensures var r := ParseMembers(b, more[1..], depth, next, seen + {m.key});
      more[0] == COMMA && r.Ok? ==> ParseMembers(b, s, depth, nodes, seen) == Ok([m] + r.value, r.rest, r.nodes)
  {
    NoSkip(s);
    NoSkip(more);
    hide ParseValue, ParseKey;
  }

  // ---- what is read is well formed and within the budgets ----

  ghost predicate GoodValue(b: Budget, v: Value, depth: nat, nodes: nat, next: nat)
  {
    WellFormed(b, v) && depth + Depth(v) <= b.maxDepth && next == nodes + Nodes(v) && next <= b.maxNodes
  }

  ghost predicate GoodItems(b: Budget, items: seq<Value>, depth: nat, nodes: nat, next: nat)
  {
    WellFormedItems(b, items) && depth + DepthItems(items) <= b.maxDepth && next == nodes + NodesItems(items) && next <= b.maxNodes
  }

  ghost predicate GoodMembers(b: Budget, members: seq<Member>, depth: nat, nodes: nat, next: nat, seen: set<Bytes>)
  {
    && WellFormedMembers(b, members, seen) && depth + DepthMembers(members) <= b.maxDepth
    && next == nodes + NodesMembers(members) && next <= b.maxNodes
  }

  lemma ScalarSound(b: Budget, s: Bytes, depth: nat, nodes: nat)
    requires s != [] && nodes < b.maxNodes && depth <= b.maxDepth
    ensures var r := ParseScalar(b, s, nodes); r.Ok? ==> GoodValue(b, r.value, depth, nodes, r.nodes)
  {
    hide StringBody, NumberLen, Utf8.Valid;
    StringValid(s[1..]);
    var n := NumberLen(s);
    if n.Some? {
      NumberPrefix(s, n.value);
    }
  }

  lemma {:induction false} ParseSound(b: Budget, s: Bytes, depth: nat, nodes: nat)
    requires depth <= b.maxDepth
    ensures var r := ParseValue(b, s, depth, nodes); r.Ok? ==> GoodValue(b, r.value, depth, nodes, r.nodes)
    decreases |s|, 0
  {
    hide *;
    if nodes < b.maxNodes && s != [] {
      var t := SkipSpace(s[1..]);
      if s[0] == OPEN_ARRAY && depth < b.maxDepth {
        ItemsSound(b, t, depth + 1, nodes + 1);
        ArraySound(b, s, depth, nodes);
      } else if s[0] == OPEN_OBJECT && depth < b.maxDepth {
        MembersSound(b, t, depth + 1, nodes + 1, {});
        ObjectSound(b, s, depth, nodes);
      } else if s[0] == OPEN_ARRAY || s[0] == OPEN_OBJECT {
        TooDeep(b, s, depth, nodes);
      } else {
        ScalarSound(b, s, depth, nodes);
        OnlyScalar(b, s, depth, nodes);
      }
    } else {
      NothingRead(b, s, depth, nodes);
    }
  }

  lemma OnlyScalar(b: Budget, s: Bytes, depth: nat, nodes: nat)
    requires nodes < b.maxNodes && s != [] && s[0] != OPEN_ARRAY && s[0] != OPEN_OBJECT
    ensures ParseValue(b, s, depth, nodes) == ParseScalar(b, s, nodes)
  {
    hide ParseItems, ParseMembers, ParseScalar;
  }

  lemma TooDeep(b: Budget, s: Bytes, depth: nat, nodes: nat)
    requires depth >= b.maxDepth && s != [] && (s[0] == OPEN_ARRAY || s[0] == OPEN_OBJECT)
    ensures ParseValue(b, s, depth, nodes).Bad?
  {
    hide ParseItems, ParseMembers, ParseScalar;
  }

  lemma NothingRead(b: Budget, s: Bytes, depth: nat, nodes: nat)
    requires nodes >= b.maxNodes || s == []
    ensures ParseValue(b, s, depth, nodes).Bad?
  {
  }

  lemma ArraySound(b: Budget, s: Bytes, depth: nat, nodes: nat)
    requires nodes < b.maxNodes && s != [] && s[0] == OPEN_ARRAY && depth < b.maxDepth
    requires var r := ParseItems(b, SkipSpace(s[1..]), depth + 1, nodes + 1); r.Ok? ==> GoodItems(b, r.value, depth + 1, nodes + 1, r.nodes)
    ensures var r := ParseValue(b, s, depth, nodes); r.Ok? ==> GoodValue(b, r.value, depth, nodes, r.nodes)
  {
    hide ParseItems, SkipSpace;
  }

  lemma ObjectSound(b: Budget, s: Bytes, depth: nat, nodes: nat)
    requires nodes < b.maxNodes && s != [] && s[0] == OPEN_OBJECT && depth < b.maxDepth
    requires var r := ParseMembers(b, SkipSpace(s[1..]), depth + 1, nodes + 1, {}); r.Ok? ==> GoodMembers(b, r.value, depth + 1, nodes + 1, r.nodes, {})
    ensures var r := ParseValue(b, s, depth, nodes); r.Ok? ==> GoodValue(b, r.value, depth, nodes, r.nodes)
  {
    hide ParseMembers, SkipSpace;
  }

  lemma {:induction false} ItemsSound(b: Budget, s: Bytes, depth: nat, nodes: nat)
    requires depth <= b.maxDepth
    ensures var r := ParseItems(b, s, depth, nodes); r.Ok? ==> GoodItems(b, r.value, depth, nodes, r.nodes)
    decreases |s|, 1
  {
    hide ParseValue, WellFormed, Depth, Nodes;
    var v := ParseValue(b, SkipSpace(s), depth, nodes);
    if v.Ok? {
      ParseSound(b, SkipSpace(s), depth, nodes);
      var t := SkipSpace(v.rest);
      if t != [] && t[0] == COMMA {
        ItemsSound(b, t[1..], depth, v.nodes);
        var r := ParseItems(b, t[1..], depth, v.nodes);
        if r.Ok? {
          ConsItems(b, v.value, r.value, depth, nodes, v.nodes, r.nodes);
        }
      } else {
        NoItems(b, depth, v.nodes);
        ConsItems(b, v.value, [], depth, nodes, v.nodes, v.nodes);
        assert [v.value] + [] == [v.value];
      }
    }
  }

  lemma NoItems(b: Budget, depth: nat, nodes: nat)
    requires depth <= b.maxDepth && nodes <= b.maxNodes
    ensures GoodItems(b, [], depth, nodes, nodes)
  {
  }

  lemma ConsItems(b: Budget, v: Value, items: seq<Value>, depth: nat, nodes: nat, mid: nat, next: nat)
    requires GoodValue(b, v, depth, nodes, mid) && GoodItems(b, items, depth, mid, next)
    ensures GoodItems(b, [v] + items, depth, nodes, next)
  {
    hide WellFormed, Depth, Nodes;
    assert ([v] + items)[1..] == items;
  }

  lemma {:induction false} MembersSound(b: Budget, s: Bytes, depth: nat, nodes: nat, seen: set<Bytes>)
    requires depth <= b.maxDepth
    ensures var r := ParseMembers(b, s, depth, nodes, seen); r.Ok? ==> GoodMembers(b, r.value, depth, nodes, r.nodes, seen)
    decreases |s|, 1
  {
    hide ParseValue, ParseKey, WellFormed, Depth, Nodes, Utf8.Valid;
    var k := ParseKey(b, SkipSpace(s), nodes);
    if k.Ok? && k.value !in seen {
      KeySound(b, SkipSpace(s), nodes);
      var v := ParseValue(b, k.rest, depth, k.nodes);
      if v.Ok? {
        ParseSound(b, k.rest, depth, k.nodes);
        var t := SkipSpace(v.rest);
        var m := Member(k.value, v.value);
        if t != [] && t[0] == COMMA {
          MembersSound(b, t[1..], depth, v.nodes, seen + {k.value});
          var r := ParseMembers(b, t[1..], depth, v.nodes, seen + {k.value});
          if r.Ok? {
            ConsMembers(b, m, r.value, depth, nodes, v.nodes, r.nodes, seen);
          }
        } else {
          NoMembers(b, depth, v.nodes, seen + {k.value});
          ConsMembers(b, m, [], depth, nodes, v.nodes, v.nodes, seen);
          assert [m] + [] == [m];
        }
      }
    }
  }

  lemma KeySound(b: Budget, s: Bytes, nodes: nat)
    ensures var k := ParseKey(b, s, nodes); k.Ok? ==> Utf8.Valid(k.value) && k.nodes == nodes + 1
  {
    hide StringBody, Utf8.Valid;
    if s != [] {
      StringValid(s[1..]);
    }
  }

  lemma NoMembers(b: Budget, depth: nat, nodes: nat, seen: set<Bytes>)
    requires depth <= b.maxDepth && nodes <= b.maxNodes
    ensures GoodMembers(b, [], depth, nodes, nodes, seen)
  {
  }

  lemma ConsMembers(b: Budget, m: Member, members: seq<Member>, depth: nat, nodes: nat, mid: nat, next: nat, seen: set<Bytes>)
    requires GoodValue(b, m.value, depth, nodes + 1, mid) && GoodMembers(b, members, depth, mid, next, seen + {m.key})
    requires Utf8.Valid(m.key) && m.key !in seen
    ensures GoodMembers(b, [m] + members, depth, nodes, next, seen)
  {
    hide WellFormed, Depth, Nodes, Utf8.Valid;
    assert ([m] + members)[1..] == members;
  }

  /** What the parser accepts, it also accepts printed. */
  lemma ParsedReads(b: Budget, raw: Bytes, v: Value)
    requires Parse(b, raw) == Some(v)
    ensures WellFormed(b, v) && Depth(v) <= b.maxDepth && Nodes(v) <= b.maxNodes && Parse(b, Print(v)) == Some(v)
  {
    hide ParseValue, Print, WellFormed, Depth, Nodes;
    ParseSound(b, SkipSpace(raw), 0, 0);
    PrintParses(b, v);
  }

  /** The print of a well-formed value within the budgets parses back to it. */
  lemma PrintParses(b: Budget, v: Value)
    requires WellFormed(b, v) && Depth(v) <= b.maxDepth && Nodes(v) <= b.maxNodes
    ensures Parse(b, Print(v)) == Some(v)
  {
    PrintStarts(b, v);
    PrintReads(b, v, [], 0, 0);
    hide ParseValue, Print;
    assert Print(v) + [] == Print(v);
    NoSkip(Print(v));
  }
}
