/** The JSON form of a tool result message and its exact size: string escapes per section 7 of
    RFC 8259, text and inline image blocks, results, and the counting encoder
    (internal/sessionwire/message.go:121-303, 318-331). */
module Wire {
  import opened Utf8
  import opened Int64
  import opened Escape
  import opened Frame
  import opened Wrappers

  const QUOTE: byte := 34
  const BACKSLASH: byte := 92
  const COMMA: byte := 44
  const COLON: byte := 58

  // ---- strings ----

  predicate Plain(b: byte)
  {
    0x20 <= b < 0x80 && b != QUOTE && b != BACKSLASH
  }

  /** The escape of an ASCII byte that cannot stand for itself. */
  function EscapeByte(b: byte): (r: Bytes)
    requires b < 0x80 && !Plain(b)
    ensures 2 <= |r| <= 6
  {
    if b == QUOTE || b == BACKSLASH then [BACKSLASH, b]
    else if b == 8 then [BACKSLASH, 98]
    else if b == 12 then [BACKSLASH, 102]
    else if b == 10 then [BACKSLASH, 110]
    else if b == 13 then [BACKSLASH, 114]
    else if b == 9 then [BACKSLASH, 116]
    else [BACKSLASH, 117, 48, 48, HexDigit(b / 16), HexDigit(b % 16)]
  }

  /** U+2028 or U+2029 at the start of `s`. */
  predicate Separator(s: Bytes)
  {
    |s| >= 3 && s[0] == 0xE2 && s[1] == 0x80 && (s[2] == 0xA8 || s[2] == 0xA9)
  }

  function SeparatorEscape(s: Bytes): (r: Bytes)
    requires Separator(s)
    ensures |r| == 6
  {
    [BACKSLASH, 117, 50, 48, 50, if s[2] == 0xA8 then 56 else 57]
  }

  /** How many bytes the next step of the encoder consumes, and what it writes for them. */
  function StepLen(s: Bytes): (n: nat)
    requires s != []
    ensures n <= |s|
  {
    if s[0] < 0x80 then 1 else RuneLen(s)
  }

  function StepOut(s: Bytes): Bytes
    requires s != []
  {
    if s[0] < 0x80 then (if Plain(s[0]) then [s[0]] else EscapeByte(s[0]))
    else if Separator(s) then SeparatorEscape(s)
    else s[..RuneLen(s)]
  }

  function Body(s: Bytes): Bytes
  {
    if s == [] || StepLen(s) == 0 then [] else StepOut(s) + Body(s[StepLen(s)..])
  }

  function JsonString(s: Bytes): Bytes
  {
    [QUOTE] + Body(s) + [QUOTE]
  }

  lemma StepIsRune(s: Bytes)
    requires s != []
    ensures StepLen(s) == RuneLen(s)
    ensures Separator(s) ==> StepLen(s) == 3
  {
  }

  /** No byte costs more than six. */
  lemma {:induction false} BodySize(s: Bytes)
    ensures |Body(s)| <= 6 * |s|
  {
    if s != [] && StepLen(s) != 0 {
      StepIsRune(s);
      BodySize(s[StepLen(s)..]);
    }
  }

  // ---- reading a string back ----

  /** The UTF-8 form of a code point of the basic plane, section 3 of RFC 3629. */
  function EncodeRune(c: nat): Bytes
    requires c < 0x10000
  {
    if c < 0x80 then [c]
    else if c < 0x800 then [0xC0 + c / 64, 0x80 + c % 64]
    else [0xE0 + c / 4096, 0x80 + c / 64 % 64, 0x80 + c % 64]
  }

  function ShortEscape(b: byte): Option<byte>
  {
    if b == QUOTE || b == BACKSLASH || b == 47 then Some(b)
    else if b == 98 then Some(8) else if b == 102 then Some(12) else if b == 110 then Some(10)
    else if b == 114 then Some(13) else if b == 116 then Some(9) else None
  }

  function Prepend(head: Bytes, tail: Option<Bytes>): Option<Bytes>
  {
    if tail.Some? then Some(head + tail.value) else None
  }

  /** The text a JSON string body stands for (escaped surrogate pairs are never written). */
  function Unescape(s: Bytes): Option<Bytes>
  {
    if s == [] then Some([])
    else if s[0] != BACKSLASH then
      if s[0] < 0x20 || s[0] == QUOTE then None else Prepend([s[0]], Unescape(s[1..]))
    else if |s| < 2 then None
    else if s[1] == 117 then
      if |s| < 6 then None
      else
        var a, b, c, d := HexValue(s[2]), HexValue(s[3]), HexValue(s[4]), HexValue(s[5]);
        if a.None? || b.None? || c.None? || d.None? then None
        else if a.value > 15 || b.value > 15 || c.value > 15 || d.value > 15 then None
        else
          var code := a.value * 4096 + b.value * 256 + c.value * 16 + d.value;
          if 0xD800 <= code < 0xE000 then None else Prepend(EncodeRune(code), Unescape(s[6..]))
    else if ShortEscape(s[1]).None? then None
    else Prepend([ShortEscape(s[1]).value], Unescape(s[2..]))
  }

  lemma {:induction false} UnescapeCopies(p: Bytes, rest: Bytes)
    requires forall i :: 0 <= i < |p| ==> p[i] >= 0x80 || Plain(p[i])
    ensures Unescape(p + rest) == Prepend(p, Unescape(rest))
  {
    if p == [] {
      assert p + rest == rest;
      PrependTwo([], [], Unescape(rest));
    } else {
      assert (p + rest)[1..] == p[1..] + rest;
      UnescapeCopies(p[1..], rest);
      PrependTwo([p[0]], p[1..], Unescape(rest));
      assert [p[0]] + p[1..] == p;
    }
  }

  lemma PrependTwo(a: Bytes, b: Bytes, t: Option<Bytes>)
    ensures Prepend(a, Prepend(b, t)) == Prepend(a + b, t)
    ensures Prepend([], t) == t
  {
    if t.Some? {
      assert a + (b + t.value) == (a + b) + t.value;
      assert [] + t.value == t.value;
    }
  }

  lemma UnescapeEscaped(b: byte, rest: Bytes)
    requires b < 0x80 && !Plain(b)
    ensures Unescape(EscapeByte(b) + rest) == Prepend([b], Unescape(rest))
  {
    var e := EscapeByte(b);
    assert (e + rest)[..|e|] == e && (e + rest)[|e|..] == rest;
    assert forall i :: 0 <= i < |e| ==> (e + rest)[i] == e[i];
  }

  lemma UnescapeSeparator(s: Bytes, rest: Bytes)
    requires Separator(s)
    ensures Unescape(SeparatorEscape(s) + rest) == Prepend(s[..3], Unescape(rest))
  {
    var e := SeparatorEscape(s);
    assert (e + rest)[6..] == rest;
    assert forall i :: 0 <= i < |e| ==> (e + rest)[i] == e[i];
    assert EncodeRune(0x2028) == [0xE2, 0x80, 0xA8] && EncodeRune(0x2029) == [0xE2, 0x80, 0xA9];
    assert s[..3] == [0xE2, 0x80, s[2]];
    assert s[..3] == EncodeRune(if s[2] == 0xA8 then 0x2028 else 0x2029);
  }

  lemma RuneBytes(s: Bytes)
    requires s != [] && s[0] >= 0x80
    ensures forall i :: 0 <= i < RuneLen(s) ==> s[i] >= 0x80
  {
  }

  lemma StepUnescapes(s: Bytes, rest: Bytes)
    requires s != [] && StepLen(s) > 0
    ensures Unescape(StepOut(s) + rest) == Prepend(s[..StepLen(s)], Unescape(rest))
  {
    hide Unescape, EscapeByte, SeparatorEscape;
    StepIsRune(s);
    if s[0] < 0x80 {
      assert s[..1] == [s[0]];
      if Plain(s[0]) { UnescapeCopies([s[0]], rest); } else { UnescapeEscaped(s[0], rest); }
    } else if Separator(s) {
      UnescapeSeparator(s, rest);
    } else {
      RuneBytes(s);
      UnescapeCopies(s[..RuneLen(s)], rest);
    }
  }

  /** Reading an encoded string gives the text back, for all valid text. */
  lemma {:induction false} StringRoundTrip(s: Bytes)
    requires Valid(s)
    ensures Unescape(Body(s)) == Some(s)
  {
    if s != [] {
      hide Unescape, StepOut, RuneLen;
      var n := StepLen(s);
      StepIsRune(s);
      StringRoundTrip(s[n..]);
      StepUnescapes(s, Body(s[n..]));
      assert s == s[..n] + s[n..];
    }
  }

  // ---- blocks, results, messages ----

  datatype ToolResult = ToolResult(callID: Bytes, name: Bytes, isError: bool, children: seq<Block>)

  const TYPE_TEXT: Bytes := Ascii("{\"type\":\"text\"")
  const TYPE_IMAGE: Bytes := Ascii("{\"type\":\"image\"")
  const TYPE_RESULT: Bytes := Ascii("{\"type\":\"tool_result\"")
  const NAME_TEXT: Bytes := Ascii(",\"text\":")
  const NAME_MIME: Bytes := Ascii(",\"mime\":")
  const NAME_DETAIL: Bytes := Ascii(",\"detail\":")
  const NAME_NAME: Bytes := Ascii(",\"name\":")
  const NAME_CALL: Bytes := Ascii(",\"call_id\":")
  const DATA_BEGIN: Bytes := Ascii(",\"data\":\"")
  const IS_ERROR: Bytes := Ascii(",\"is_error\":true")
  const CONTENT_BEGIN: Bytes := Ascii(",\"content\":[")
  const CONTENT_END: Bytes := Ascii("]}")
  const MESSAGE_BEGIN: Bytes := Ascii("{\"role\":\"user\",\"content\":[")
  const CLOSE: Bytes := Ascii("}")

  lemma LiteralSizes()
    ensures |TYPE_TEXT| == 14 && |TYPE_IMAGE| == 15 && |NAME_TEXT| == 8 && |NAME_MIME| == 8 && |NAME_DETAIL| == 10
    ensures |DATA_BEGIN| == 9 && |CLOSE| == 1
  {
    hide Ascii;
  }

  /** One group of Base64, section 4 of RFC 4648: one to three bytes make four characters. */
  function Group64(data: Bytes): (r: Bytes)
    requires data != []
    ensures |r| == 4
  {
    var b := data[1..] + [0, 0];
    var x: int, y: int, z: int := data[0], b[0], b[1];
    var group := x * 65536 + y * 256 + z;
    [Digit64(group / 262144 % 64), Digit64(group / 4096 % 64),
     if |data| >= 2 then Digit64(group / 64 % 64) else 61, if |data| >= 3 then Digit64(group % 64) else 61]
  }

  function Base64(data: Bytes): Bytes
  {
    if data == [] then [] else if |data| <= 3 then Group64(data) else Group64(data) + Base64(data[3..])
  }

  function Digit64(v: nat): byte
    requires v < 64
  {
    if v < 26 then 65 + v else if v < 52 then 71 + v else if v < 62 then v - 4 else if v == 62 then 43 else 47
  }

  lemma {:induction false} Base64Size(data: Bytes)
    ensures |Base64(data)| == (|data| + 2) / 3 * 4
  {
    hide Group64;
    if |data| > 3 {
      Base64Size(data[3..]);
    }
  }

  function JsonField(name: Bytes, value: Bytes): Bytes
  {
    if value == [] then [] else name + JsonString(value)
  }

  function JsonData(data: Bytes): Bytes
  {
    if data == [] then [] else DATA_BEGIN + Base64(data) + [QUOTE]
  }

  function JsonBlock(b: Block): Bytes
  {
    match b
    case Text(text) => TYPE_TEXT + JsonField(NAME_TEXT, text) + CLOSE
    case Image(mime, detail, data) => TYPE_IMAGE + JsonField(NAME_MIME, mime) + JsonData(data) + JsonField(NAME_DETAIL, detail) + CLOSE
  }

  function Join(items: seq<Bytes>): Bytes
  {
    if items == [] then []
    else if |items| == 1 then items[0]
    else items[0] + [COMMA] + Join(items[1..])
  }

  function JsonBlocks(blocks: seq<Block>): (r: seq<Bytes>)
    ensures |r| == |blocks|
  {
    if blocks == [] then [] else [JsonBlock(blocks[0])] + JsonBlocks(blocks[1..])
  }

  function JsonResult(r: ToolResult): Bytes
  {
    TYPE_RESULT + JsonField(NAME_NAME, r.name) + JsonField(NAME_CALL, r.callID) + (if r.isError then IS_ERROR else [])
    + (if r.children == [] then [] else CONTENT_BEGIN + Join(JsonBlocks(r.children)) + [93]) + CLOSE
  }

  function JsonResults(results: seq<ToolResult>): (r: seq<Bytes>)
    ensures |r| == |results|
  {
    if results == [] then [] else [JsonResult(results[0])] + JsonResults(results[1..])
  }

  function JsonMessage(results: seq<ToolResult>): Bytes
  {
    MESSAGE_BEGIN + Join(JsonResults(results)) + CONTENT_END
  }

  // ---- what a block costs ----

  lemma FieldSize(name: Bytes, value: Bytes)
    ensures |JsonField(name, value)| <= |name| + 2 + 6 * |value|
  {
    BodySize(value);
  }

  lemma TextBlockSize(text: Bytes)
    ensures |JsonBlock(Text(text))| <= 25 + 6 * |text|
  {
    hide Ascii;
    FieldSize(NAME_TEXT, text);
    LiteralSizes();
  }

  lemma ImageBlockSize(mime: Bytes, detail: Bytes, data: Bytes)
    ensures |JsonBlock(Image(mime, detail, data))| <= 54 + 6 * |mime| + 6 * |detail| + 2 * |data|
  {
    hide Ascii, Base64;
    FieldSize(NAME_MIME, mime);
    FieldSize(NAME_DETAIL, detail);
    Base64Size(data);
    LiteralSizes();
  }

  /** A block and the comma after it cost less than six times its frame. */
  lemma BlockCost(b: Block)
    ensures |JsonBlock(b)| + 1 <= 6 * SizeOf(b)
  {
    hide JsonBlock;
    match b
    case Text(text) => TextBlockSize(text);
    case Image(mime, detail, data) => ImageBlockSize(mime, detail, data);
  }

  lemma {:induction false} BlocksCost(blocks: seq<Block>, from: nat)
    requires from <= |blocks|
    ensures |Join(JsonBlocks(blocks[from..]))| <= 6 * SizesFrom(blocks, from)
    decreases |blocks| - from
  {
    hide JsonBlock, SizeOf;
    if from < |blocks| {
      var rest := blocks[from..];
      assert rest[1..] == blocks[from + 1..];
      BlockCost(rest[0]);
      BlocksCost(blocks, from + 1);
      JoinCons(JsonBlock(rest[0]), JsonBlocks(rest[1..]));
    }
  }

  lemma JoinCons(item: Bytes, items: seq<Bytes>)
    ensures |Join([item] + items)| == |item| + (if items == [] then 0 else 1 + |Join(items)|)
  {
    assert ([item] + items)[1..] == items;
  }

  // ---- the counting encoder ----

  ghost predicate BlockEncodes(b: Block)
  {
    match b
    case Text(text) => Valid(text)
    case Image(mime, detail, data) => mime != [] && data != [] && detail in DETAILS && Valid(mime) && Valid(detail)
  }

  ghost predicate ResultEncodes(r: ToolResult)
  {
    && r.callID != [] && r.name != [] && r.children != []
    && Valid(r.callID) && Valid(r.name)
    && forall i :: 0 <= i < |r.children| ==> BlockEncodes(r.children[i])
  }

  /** fragmentEncoder over countWriter: only the number of bytes is kept, and it is the length
      of the JSON text written so far. */
  class FragmentEncoder {
    var count: int64
    var failed: bool
    ghost var sink: Bytes

    ghost predicate Good()
      reads this
    {
      count >= 0 && (!failed ==> count == |sink|)
    }

    ghost function View(): Fed
      reads this
    {
      if failed then TooLong else Fed(sink)
    }

    constructor ()
      ensures Good() && View() == Fed([])
    {
      count, failed, sink := 0, false, [];
    }

    method Write(data: Bytes)
      requires Good()
      modifies this
      ensures Good() && View() == Feed(old(View()), data)
    {
      if failed || data == [] {
        if !failed { assert sink + data == sink; }
        return;
      }
      if |data| > MAX_INT64 - count {
        failed := true;
        return;
      }
      count := count + |data|;
      sink := sink + data;
    }

    /** Stretches that need no escape are written in one go; invalid text fails the encoder. */
    method String(value: Bytes)
      requires Good()
      modifies this
      ensures Good() && View() == if Valid(value) then Feed(old(View()), JsonString(value)) else TooLong
    {
      hide Feed, At, Valid, RuneLen, EscapeByte, SeparatorEscape;
      ghost var base := old(View());
      Write([QUOTE]);
      var start, index := 0, 0;
      ghost var done: Bytes := [];
      assert [QUOTE] + done == [QUOTE];
      AtStart(value);
      while index < |value|
        invariant 0 <= start <= index <= |value| && Good()
        invariant View() == Feed(base, [QUOTE] + done)
        invariant At(value, done, start, index)
        decreases |value| - index
      {
        AtSteps(value, done, start, index);
        if value[index] < 0x80 && Plain(value[index]) {
          index := index + 1;
          continue;
        }
        if value[index] >= 0x80 {
          var width := RuneLen(value[index..]);
          if width == 0 {
            failed := true;
            return;
          }
          if !Separator(value[index..]) {
            index := index + width;
            continue;
          }
        }
        var out := if value[index] < 0x80 then EscapeByte(value[index]) else SeparatorEscape(value[index..]);
        Flush(base, [QUOTE] + done, value[start..index], out);
        assert [QUOTE] + done + value[start..index] + out == [QUOTE] + (done + value[start..index] + out);
        done := done + value[start..index] + out;
        index := index + (if value[index] < 0x80 then 1 else 3);
        start := index;
      }
      AtEnd(value, done, start);
      Flush(base, [QUOTE] + done, value[start..], [QUOTE]);
    }

    method Field(name: Bytes, value: Bytes)
      requires Good()
      modifies this
      ensures Good() && View() == if Valid(value) then Feed(old(View()), JsonField(name, value)) else TooLong
    {
      hide Feed, JsonString;
      if value == [] {
        FeedEmpty(View());
        return;
      }
      FeedTwo(View(), name, JsonString(value));
      Write(name);
      String(value);
    }

    method DataField(data: Bytes)
      requires Good()
      modifies this
      ensures Good() && View() == Feed(old(View()), JsonData(data))
    {
      hide Feed, Base64;
      if data == [] {
        FeedEmpty(View());
        return;
      }
      FeedTwo(View(), DATA_BEGIN, Base64(data));
      FeedTwo(View(), DATA_BEGIN + Base64(data), [QUOTE]);
      Write(DATA_BEGIN);
      Write(Base64(data));
      Write([QUOTE]);
    }

    /** content, for a text or an inline image; validation comes first. */
    method BlockContent(b: Block)
      requires Good()
      modifies this
      ensures Good() && View() == if BlockEncodes(b) then Feed(old(View()), JsonBlock(b)) else TooLong
    {
      hide Feed, JsonField, JsonData, Valid, Ascii;
      if b.Image? && (b.mime == [] || b.data == [] || b.detail !in DETAILS) {
        failed := true;
        return;
      }
      ghost var base := View();
      match b {
        case Text(text) =>
          FeedTwo(base, TYPE_TEXT, JsonField(NAME_TEXT, text));
          FeedTwo(base, TYPE_TEXT + JsonField(NAME_TEXT, text), CLOSE);
          Write(TYPE_TEXT);
          Field(NAME_TEXT, text);
        case Image(mime, detail, data) =>
          ghost var m, d, e := JsonField(NAME_MIME, mime), JsonData(data), JsonField(NAME_DETAIL, detail);
          FeedTwo(base, TYPE_IMAGE, m);
          FeedTwo(base, TYPE_IMAGE + m, d);
          FeedTwo(base, TYPE_IMAGE + m + d, e);
          FeedTwo(base, TYPE_IMAGE + m + d + e, CLOSE);
          Write(TYPE_IMAGE);
          Field(NAME_MIME, mime);
          StaysFailed(View(), d);
          DataField(data);
          StaysFailed(View(), e);
          Field(NAME_DETAIL, detail);
      }
      StaysFailed(View(), CLOSE);
      Write(CLOSE);
    }

    /** The children of a result, separated by commas. */
    method Children(blocks: seq<Block>)
      requires Good()
      modifies this
      ensures Good()
      ensures View() == if forall i :: 0 <= i < |blocks| ==> BlockEncodes(blocks[i])
                        then Feed(old(View()), Join(JsonBlocks(blocks))) else TooLong
    {
      hide Feed, JsonBlock, BlockEncodes, Join, JsonBlocks;
      NoBlocks();
      ghost var base := View();
      FeedEmpty(base);
      for i := 0 to |blocks|
        invariant Good()
        invariant View() == if forall j :: 0 <= j < i ==> BlockEncodes(blocks[j])
                            then Feed(base, Join(JsonBlocks(blocks[..i]))) else TooLong
      {
        ghost var sofar, here := Join(JsonBlocks(blocks[..i])), JsonBlock(blocks[i]);
        JoinSnoc(blocks, i);
        FeedTwo(base, sofar, [COMMA]);
        FeedTwo(base, sofar + [COMMA], here);
        StaysFailed(View(), [COMMA]);
        if i > 0 {
          Write([COMMA]);
        }
        StaysFailed(View(), here);
        BlockContent(blocks[i]);
      }
      assert blocks[..|blocks|] == blocks;
    }

    /** content, for a tool result; validation comes first. */
    method ResultContent(r: ToolResult)
      requires Good()
      modifies this
      ensures Good() && View() == if ResultEncodes(r) then Feed(old(View()), JsonResult(r)) else TooLong
    {
      hide Feed, JsonField, Join, JsonBlocks, Valid;
      if r.callID == [] || r.name == [] || r.children == [] {
        failed := true;
        return;
      }
      ghost var base := View();
      ghost var n, c, e := JsonField(NAME_NAME, r.name), JsonField(NAME_CALL, r.callID), if r.isError then IS_ERROR else [];
      FeedTwo(base, TYPE_RESULT, n);
      FeedTwo(base, TYPE_RESULT + n, c);
      FeedTwo(base, TYPE_RESULT + n + c, e);
      Write(TYPE_RESULT);
      Field(NAME_NAME, r.name);
      StaysFailed(View(), c);
      Field(NAME_CALL, r.callID);
      StaysFailed(View(), e);
      FeedEmpty(View());
      if r.isError {
        Write(IS_ERROR);
      }
      ghost var list := Join(JsonBlocks(r.children));
      ghost var head := TYPE_RESULT + n + c + e;
      FeedTwo(base, head, CONTENT_BEGIN);
      FeedTwo(base, head + CONTENT_BEGIN, list);
      StaysFailed(View(), CONTENT_BEGIN);
      Write(CONTENT_BEGIN);
      StaysFailed(View(), list);
      Children(r.children);
      CloseResult(base, head, list);
      StaysFailed(View(), [93]);
      Write([93]);
      StaysFailed(View(), CLOSE);
      Write(CLOSE);
    }

    /** A stretch as it is, then what follows it. */
    method Flush(ghost base: Fed, ghost sofar: Bytes, stretch: Bytes, out: Bytes)
      requires Good() && View() == Feed(base, sofar)
      modifies this
      ensures Good() && View() == Feed(base, sofar + stretch + out)
    {
      hide Feed;
      FeedTwo(base, sofar, stretch);
      FeedTwo(base, sofar + stretch, out);
      Write(stretch);
      Write(out);
    }
  }

  lemma NoBlocks()
    ensures Join(JsonBlocks([])) == []
  {
  }

  lemma FeedEmpty(fed: Fed)
    requires fed.Fed? ==> |fed.bytes| <= MAX_INT64
    ensures Feed(fed, []) == fed
  {
    FeedNothing(fed);
  }

  lemma StaysFailed(fed: Fed, p: Bytes)
    ensures fed == TooLong ==> Feed(fed, p) == TooLong
  {
  }

  lemma {:induction false} JoinSnocItems(items: seq<Bytes>, last: Bytes)
    ensures Join(items + [last]) == if items == [] then last else Join(items) + [COMMA] + last
  {
    if items == [] {
      assert items + [last] == [last];
    } else {
      assert (items + [last])[1..] == items[1..] + [last];
      JoinSnocItems(items[1..], last);
      if |items| > 1 {
        var a := items[0] + [COMMA];
        assert a + (Join(items[1..]) + [COMMA] + last) == a + Join(items[1..]) + [COMMA] + last;
      }
    }
  }

  lemma {:induction false} JsonBlocksSnoc(blocks: seq<Block>, b: Block)
    ensures JsonBlocks(blocks + [b]) == JsonBlocks(blocks) + [JsonBlock(b)]
  {
    hide JsonBlock;
    if blocks == [] {
      assert blocks + [b] == [b] && JsonBlocks([]) == [];
    } else {
      assert (blocks + [b])[1..] == blocks[1..] + [b];
      JsonBlocksSnoc(blocks[1..], b);
    }
  }

  lemma JoinSnoc(blocks: seq<Block>, i: nat)
    requires i < |blocks|
    ensures Join(JsonBlocks(blocks[..i + 1]))
      == if i == 0 then JsonBlock(blocks[0]) else Join(JsonBlocks(blocks[..i])) + [COMMA] + JsonBlock(blocks[i])
  {
    hide JsonBlock, Join, JsonBlocks;
    assert blocks[..i + 1] == blocks[..i] + [blocks[i]];
    JsonBlocksSnoc(blocks[..i], blocks[i]);
    JoinSnocItems(JsonBlocks(blocks[..i]), JsonBlock(blocks[i]));
  }

  lemma CloseResult(base: Fed, head: Bytes, list: Bytes)
    ensures Feed(Feed(Feed(base, head + CONTENT_BEGIN + list), [93]), CLOSE) == Feed(base, head + (CONTENT_BEGIN + list + [93]) + CLOSE)
  {
    hide Feed;
    FeedTwo(base, head + CONTENT_BEGIN + list, [93]);
    FeedTwo(base, head + CONTENT_BEGIN + list + [93], CLOSE);
    assert head + CONTENT_BEGIN + list + [93] == head + (CONTENT_BEGIN + list + [93]);
  }

  lemma {:induction false} JsonResultsSnoc(results: seq<ToolResult>, r: ToolResult)
    ensures JsonResults(results + [r]) == JsonResults(results) + [JsonResult(r)]
  {
    hide JsonResult;
    if results == [] {
      assert results + [r] == [r] && JsonResults([]) == [];
    } else {
      assert (results + [r])[1..] == results[1..] + [r];
      JsonResultsSnoc(results[1..], r);
    }
  }

  ghost predicate MessageEncodes(results: seq<ToolResult>)
  {
    results != [] && forall i :: 0 <= i < |results| ==> ResultEncodes(results[i])
  }

  lemma FedFromNothing(p: Bytes)
    ensures Feed(Fed([]), p) == if |p| <= MAX_INT64 then Fed(p) else TooLong
  {
    assert [] + p == p;
  }

  /** The encoder has written `done`, and `value[start..index]` waits to be written as it is. */
  ghost predicate At(value: Bytes, done: Bytes, start: nat, index: nat)
  {
    && start <= index <= |value|
    && done + value[start..index] + Body(value[index..]) == Body(value)
    && (Valid(value) <==> Valid(value[index..]))
  }

  lemma AtStart(value: Bytes)
    ensures At(value, [], 0, 0)
  {
    assert value[0..] == value;
    assert [] + value[0..0] + Body(value) == Body(value);
  }

  lemma AtSteps(value: Bytes, done: Bytes, start: nat, index: nat)
    requires index < |value| && At(value, done, start, index)
    ensures var b := value[index]; var rest := value[index..];
      && (b < 0x80 && Plain(b) ==> At(value, done, start, index + 1))
      && (b < 0x80 && !Plain(b) ==> At(value, done + value[start..index] + EscapeByte(b), index + 1, index + 1))
      && (b >= 0x80 && RuneLen(rest) == 0 ==> !Valid(value))
      && (b >= 0x80 && Separator(rest) ==> At(value, done + value[start..index] + SeparatorEscape(rest), index + 3, index + 3))
      && (b >= 0x80 && !Separator(rest) && RuneLen(rest) > 0 ==> At(value, done, start, index + RuneLen(rest)))
  {
    hide *;
    var b, rest := value[index], value[index..];
    BodyStep(value, index);
    ValidUnfolds(rest);
    AtValid(value, done, start, index);
    if b < 0x80 {
      assert value[index..index + 1] == [b];
      if Plain(b) {
        AtSkip(value, done, start, index);
      } else {
        AtEscape(value, done, start, index);
      }
    } else if RuneLen(rest) > 0 {
      if Separator(rest) {
        AtEscape(value, done, start, index);
      } else {
        AtSkip(value, done, start, index);
      }
    }
  }

  lemma AtValid(value: Bytes, done: Bytes, start: nat, index: nat)
    requires At(value, done, start, index)
    ensures start <= index <= |value| && (Valid(value) <==> Valid(value[index..]))
  {
    hide Valid;
  }

  lemma AtSkip(value: Bytes, done: Bytes, start: nat, index: nat)
    requires start <= index < |value| && At(value, done, start, index)
    requires var rest := value[index..]; StepLen(rest) > 0 && StepOut(rest) == value[index..index + StepLen(rest)]
    ensures At(value, done, start, index + StepLen(value[index..]))
  {
    hide StepOut, StepLen, Valid, Body;
    var rest := value[index..];
    var n := StepLen(rest);
    BodyStep(value, index);
    ValidUnfolds(rest);
    assert value[start..index + n] == value[start..index] + value[index..index + n];
    var more := Body(value[index + n..]);
    Assoc(done + value[start..index], StepOut(rest), more);
    Assoc(done, value[start..index], value[index..index + n]);
  }

  lemma AtEscape(value: Bytes, done: Bytes, start: nat, index: nat)
    requires start <= index < |value| && At(value, done, start, index) && StepLen(value[index..]) > 0
    ensures var rest := value[index..]; var n := StepLen(rest);
      At(value, done + value[start..index] + StepOut(rest), index + n, index + n)
  {
    hide StepOut, StepLen, Valid, Body;
    var rest := value[index..];
    var n := StepLen(rest);
    BodyStep(value, index);
    ValidUnfolds(rest);
    var more := Body(value[index + n..]);
    var out := done + value[start..index] + StepOut(rest);
    Assoc(done + value[start..index], StepOut(rest), more);
    assert out + value[index + n..index + n] == out;
  }

  lemma AtEnd(value: Bytes, done: Bytes, start: nat)
    requires At(value, done, start, |value|)
    ensures Valid(value) && start <= |value| && [QUOTE] + done + value[start..] + [QUOTE] == JsonString(value)
  {
    NothingLeft(value);
    hide Body, Valid;
    var last := value[start..];
    assert value[start..|value|] == last;
    assert done + last + [] == done + last;
    Assoc([QUOTE], done, last);
  }

  lemma NothingLeft(value: Bytes)
    ensures Body(value[|value|..]) == [] && Valid(value[|value|..])
  {
  }

  lemma ValidUnfolds(s: Bytes)
    requires s != []
    ensures Valid(s) <==> StepLen(s) > 0 && Valid(s[StepLen(s)..])
    ensures s[0] < 0x80 ==> StepLen(s) == 1
    ensures s[0] >= 0x80 ==> StepLen(s) == RuneLen(s)
    ensures Separator(s) ==> StepLen(s) == 3
  {
    StepIsRune(s);
  }

  lemma BodyStep(value: Bytes, i: nat)
    requires i < |value|
    ensures var rest := value[i..]; var n := StepLen(rest);
      n > 0 ==> i + n <= |value| && rest[n..] == value[i + n..] && Body(rest) == StepOut(rest) + Body(value[i + n..])
    ensures var rest := value[i..];
      && (value[i] < 0x80 && Plain(value[i]) ==> StepOut(rest) == [value[i]])
      && (value[i] < 0x80 && !Plain(value[i]) ==> StepOut(rest) == EscapeByte(value[i]))
      && (value[i] >= 0x80 && Separator(rest) ==> StepOut(rest) == SeparatorEscape(rest))
      && (value[i] >= 0x80 && !Separator(rest) ==> i + RuneLen(rest) <= |value| && StepOut(rest) == value[i..i + RuneLen(rest)])
  {
    var rest := value[i..];
    assert rest[StepLen(rest)..] == value[i + StepLen(rest)..];
    assert rest[..RuneLen(rest)] == value[i..i + RuneLen(rest)];
  }
}
