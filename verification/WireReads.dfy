/** The JSON form of a message says exactly what the message holds: it is JSON, and reading it
    gives every field of every content back under its name
    (internal/sessionwire/message.go:29-60, 211-303). */
module WireReads {
  import opened Utf8
  import opened Wrappers
  import opened Frame
  import opened Wire
  import opened WireMessage
  import opened Json
  import opened JsonRoundTrip
  import opened JsonSays

  // ---- the names ----

  const S_TYPE: Bytes := Ascii("type")
  const S_TEXT: Bytes := Ascii("text")
  const S_MIME: Bytes := Ascii("mime")
  const S_DATA: Bytes := Ascii("data")
  const S_DETAIL: Bytes := Ascii("detail")
  const S_URI: Bytes := Ascii("uri")
  const S_ID: Bytes := Ascii("id")
  const S_NAME: Bytes := Ascii("name")
  const S_CALL_ID: Bytes := Ascii("call_id")
  const S_IS_ERROR: Bytes := Ascii("is_error")
  const S_CONTENT: Bytes := Ascii("content")
  const S_ARGUMENTS: Bytes := Ascii("arguments")
  const S_ROLE: Bytes := Ascii("role")
  const S_IMAGE: Bytes := Ascii("image")
  const S_TOOL_RESULT: Bytes := Ascii("tool_result")
  const S_REASONING_SUMMARY: Bytes := Ascii("reasoning_summary")
  const S_REFUSAL: Bytes := Ascii("refusal")
  const S_TOOL_CALL: Bytes := Ascii("tool_call")
  const S_USER: Bytes := Ascii("user")
  const S_ASSISTANT: Bytes := Ascii("assistant")
  const HEAD_CONTENT: Bytes := Ascii(",\"content\":")
  const HEAD_ERROR: Bytes := Ascii(",\"is_error\":")
  const HEAD_DATA: Bytes := Ascii(",\"data\":")
  const HEAD_USER: Bytes := Ascii("{\"role\":\"user\"")
  const HEAD_ASSISTANT: Bytes := Ascii("{\"role\":\"assistant\"")

  // ---- what a message says ----

  function Named(key: Bytes, text: Bytes): Member
  {
    Member(key, Str(text))
  }

  /** A text that is left out when it is empty. */
  function Optional(key: Bytes, text: Bytes): seq<Member>
  {
    if text == [] then [] else [Named(key, text)]
  }

  function BlockValue(b: Block): Value
  {
    match b
    case Text(text) => Object([Named(S_TYPE, S_TEXT)] + Optional(S_TEXT, text))
    case Image(mime, detail, data) =>
      Object([Named(S_TYPE, S_IMAGE)] + Optional(S_MIME, mime) + Optional(S_DATA, Base64(data)) + Optional(S_DETAIL, detail))
  }

  function BlockValues(blocks: seq<Block>): (r: seq<Value>)
    ensures |r| == |blocks|
  {
    seq(|blocks|, i requires 0 <= i < |blocks| => BlockValue(blocks[i]))
  }

  function ResultValue(r: ToolResult): Value
  {
    Object([Named(S_TYPE, S_TOOL_RESULT)] + Optional(S_NAME, r.name) + Optional(S_CALL_ID, r.callID)
           + (if r.isError then [Member(S_IS_ERROR, Bool(true))] else [])
           + [Member(S_CONTENT, Array(BlockValues(r.children)))])
  }

  /** The value of a content, given what the arguments of calls say. */
  function PartValue(read: Bytes -> Value, p: Part): Value
  {
    match p
    case Shown(b) => BlockValue(b)
    case Link(uri, detail) => Object([Named(S_TYPE, S_IMAGE)] + Optional(S_URI, uri) + Optional(S_DETAIL, detail))
    case Reasoning(text) => Object([Named(S_TYPE, S_REASONING_SUMMARY)] + Optional(S_TEXT, text))
    case Refusal(text) => Object([Named(S_TYPE, S_REFUSAL)] + Optional(S_TEXT, text))
    case Call(id, name, arguments) =>
      Object([Named(S_TYPE, S_TOOL_CALL)] + Optional(S_ID, id) + Optional(S_NAME, name) + [Member(S_ARGUMENTS, read(arguments))])
    case Result(r) => ResultValue(r)
  }

  function PartValues(read: Bytes -> Value, parts: seq<Part>): (r: seq<Value>)
    ensures |r| == |parts|
  {
    seq(|parts|, i requires 0 <= i < |parts| => PartValue(read, parts[i]))
  }

  function MessageValue(read: Bytes -> Value, sender: Sender, parts: seq<Part>): Value
  {
    Object([Named(S_ROLE, (if sender.FromUser? then S_USER else S_ASSISTANT)), Member(S_CONTENT, Array(PartValues(read, parts)))])
  }

  // ---- plain texts ----

  lemma {:induction false} PlainBody(s: Bytes)
    requires forall i :: 0 <= i < |s| ==> Plain(s[i])
    ensures Body(s) == s && Utf8.Valid(s)
  {
    if s != [] {
      PlainBody(s[1..]);
      assert RuneLen(s) == 1 && StepLen(s) == 1;
      assert s == [s[0]] + s[1..];
    }
  }

  predicate PlainName(key: string)
  {
    forall i :: 0 <= i < |key| ==> ' ' <= key[i] < '\U{80}' && key[i] != '\"' && key[i] != '\\'
  }

  lemma NameText(key: string)
    requires PlainName(key)
    ensures JsonString(Ascii(key)) == [QUOTE] + Ascii(key) + [QUOTE] && Utf8.Valid(Ascii(key))
  {
    PlainBody(Ascii(key));
  }

  /** The head is a comma and the name. */
  ghost predicate Heads(head: Bytes, key: Bytes)
  {
    Utf8.Valid(key) && head == [COMMA] + JsonString(key) + [COLON]
  }

  lemma NameHead(key: string, head: string)
    requires PlainName(key) && head == ",\"" + key + "\":"
    ensures Heads(Ascii(head), Ascii(key))
  {
    NameText(key);
    assert Ascii(head) == [COMMA] + ([QUOTE] + Ascii(key) + [QUOTE]) + [COLON];
  }

  /** The head opens an object with a first key and its text. */
  ghost predicate OpensWith(head: Bytes, key: Bytes, text: Bytes)
  {
    Utf8.Valid(key) && Utf8.Valid(text) && head == [OPEN_OBJECT] + (JsonString(key) + [COLON] + JsonString(text))
  }

  ghost predicate Opens(head: Bytes, kind: Bytes)
  {
    OpensWith(head, S_TYPE, kind)
  }

  lemma FirstHead(key: string, text: string, head: string)
    requires PlainName(key) && PlainName(text) && head == "{\"" + key + "\":\"" + text + "\""
    ensures OpensWith(Ascii(head), Ascii(key), Ascii(text))
  {
    hide Utf8.Valid, PlainName;
    NameText(key);
    NameText(text);
    FirstHeadText(key, text, head);
  }

  lemma FirstHeadText(key: string, text: string, head: string)
    requires PlainName(key) && PlainName(text) && head == "{\"" + key + "\":\"" + text + "\""
    ensures Ascii(head) == [OPEN_OBJECT] + (([QUOTE] + Ascii(key) + [QUOTE]) + [COLON] + ([QUOTE] + Ascii(text) + [QUOTE]))
  {
    assert Ascii(head) == [OPEN_OBJECT] + (([QUOTE] + Ascii(key) + [QUOTE]) + [COLON] + ([QUOTE] + Ascii(text) + [QUOTE]));
  }

  lemma TypeHead(kind: string, head: string)
    requires PlainName(kind) && head == "{\"type\":\"" + kind + "\""
    ensures Opens(Ascii(head), Ascii(kind))
  {
    hide OpensWith;
    assert "{\"" + "type" + "\":\"" == "{\"type\":\"";
    FirstHead("type", kind, head);
  }

  lemma {:induction false} Base64Plain(data: Bytes)
    ensures forall i :: 0 <= i < |Base64(data)| ==> Plain(Base64(data)[i])
    ensures data != [] ==> Base64(data) != []
  {
    if |data| > 3 {
      Base64Plain(data[3..]);
    }
  }

  // ---- fields, one after the other ----

  /** Further fields, each with a comma in front. */
  function More(fields: seq<Field>): Bytes
  {
    if fields == [] then [] else More(fields[..|fields| - 1]) + ([COMMA] + FieldText(fields[|fields| - 1]))
  }

  lemma {:induction false} MoreFirst(fields: seq<Field>)
    requires fields != []
    ensures More(fields) == [COMMA] + FieldText(fields[0]) + More(fields[1..])
  {
    hide FieldText;
    var n := |fields| - 1;
    if n == 0 {
      assert fields[..0] == [] == fields[1..];
    } else {
      MoreFirst(fields[..n]);
      assert fields[1..][..n - 1] == fields[..n][1..];
      Assoc([COMMA] + FieldText(fields[0]), More(fields[..n][1..]), [COMMA] + FieldText(fields[n]));
    }
  }

  lemma {:induction false} FieldsAreMore(fields: seq<Field>)
    requires fields != []
    ensures FieldsText(fields) == FieldText(fields[0]) + More(fields[1..])
  {
    hide FieldText;
    if |fields| > 1 {
      FieldsAreMore(fields[1..]);
      MoreFirst(fields[1..]);
      Assoc([COMMA], FieldText(fields[1]), More(fields[1..][1..]));
      Assoc(FieldText(fields[0]), [COMMA], FieldsText(fields[1..]));
    } else {
      assert fields[1..] == [];
    }
  }

  lemma {:induction false} MembersLast(fields: seq<Field>, f: Field)
    ensures Members(fields + [f]) == Members(fields) + [Member(f.key, f.value)]
  {
    if fields == [] {
      assert [] + [f] == [f] && [f][1..] == [];
    } else {
      assert (fields + [f])[1..] == fields[1..] + [f];
      MembersLast(fields[1..], f);
    }
  }

  /** So far: a type and further fields, with keys of their own; their text and what they say. */
  ghost predicate SoFar(b: Budget, fields: seq<Field>, keys: set<Bytes>, text: Bytes, members: seq<Member>)
  {
    && fields != [] && Members(fields) == members && [OPEN_OBJECT] + FieldsText(fields) == text
    && (forall i :: 0 <= i < |fields| ==> Utf8.Valid(fields[i].key) && fields[i].key in keys && Says(b, fields[i].text, fields[i].value))
    && (forall i, j :: 0 <= i < j < |fields| ==> fields[i].key != fields[j].key)
  }

  lemma AddField(b: Budget, fields: seq<Field>, keys: set<Bytes>, text: Bytes, members: seq<Member>, f: Field)
    requires SoFar(b, fields, keys, text, members) && f.key !in keys && Utf8.Valid(f.key) && Says(b, f.text, f.value)
    ensures SoFar(b, fields + [f], keys + {f.key}, text + ([COMMA] + FieldText(f)), members + [Member(f.key, f.value)])
  {
    hide Says, FieldText;
    var more := fields + [f];
    MembersLast(fields, f);
    FieldsAreMore(fields);
    FieldsAreMore(more);
    assert more[1..] == fields[1..] + [f] && more[1..][..|more[1..]| - 1] == fields[1..];
    Assoc(FieldText(fields[0]), More(fields[1..]), [COMMA] + FieldText(f));
    Assoc([OPEN_OBJECT], FieldsText(fields), [COMMA] + FieldText(f));
    forall i | 0 <= i < |more|
      ensures Utf8.Valid(more[i].key) && more[i].key in keys + {f.key} && Says(b, more[i].text, more[i].value)
    {
    }
  }

  /** A text that may be left out. */
  lemma AddText(b: Budget, fields: seq<Field>, keys: set<Bytes>, text: Bytes, members: seq<Member>, head: Bytes, key: Bytes, value: Bytes) returns (more: seq<Field>)
    requires SoFar(b, fields, keys, text, members) && Heads(head, key) && key !in keys && Utf8.Valid(value)
    ensures SoFar(b, more, keys + {key}, text + JsonField(head, value), members + Optional(key, value))
  {
    hide Says, FieldsText, Members, JsonString;
    if value == [] {
      more := fields;
      assert text + [] == text && members + [] == members;
    } else {
      StringSays(b, value);
      more := AddValue(b, fields, keys, text, members, head, key, JsonString(value), Str(value));
    }
  }

  lemma AddValue(b: Budget, fields: seq<Field>, keys: set<Bytes>, text: Bytes, members: seq<Member>, head: Bytes, key: Bytes, said: Bytes, value: Value) returns (more: seq<Field>)
    requires SoFar(b, fields, keys, text, members) && Heads(head, key) && key !in keys && Says(b, said, value)
    ensures SoFar(b, more, keys + {key}, text + (head + said), members + [Member(key, value)])
  {
    hide Says, FieldsText, Members, JsonString, SoFar;
    var f := Field(key, said, value);
    AddField(b, fields, keys, text, members, f);
    more := fields + [f];
    Assoc([COMMA], JsonString(key) + [COLON], said);
    Assoc([COMMA], JsonString(key), [COLON]);
  }

  lemma StartObject(b: Budget, head: Bytes, kind: Bytes) returns (fields: seq<Field>)
    requires Opens(head, kind)
    ensures SoFar(b, fields, {S_TYPE}, head, [Named(S_TYPE, kind)])
  {
    var f := Field(S_TYPE, JsonString(kind), Str(kind));
    fields := [f];
    hide Says, JsonString, Ascii, Utf8.Valid;
    StringSays(b, kind);
    OneField(b, f, head);
  }

  lemma OneField(b: Budget, f: Field, head: Bytes)
    requires Utf8.Valid(f.key) && Says(b, f.text, f.value) && head == [OPEN_OBJECT] + (JsonString(f.key) + [COLON] + f.text)
    ensures SoFar(b, [f], {f.key}, head, [Member(f.key, f.value)])
  {
    hide Says, JsonString, Utf8.Valid;
    OneMember(f);
    FieldsTextIs([f]);
    assert [f][0] == f;
  }

  lemma OneMember(f: Field)
    ensures Members([f]) == [Member(f.key, f.value)]
  {
    assert [f][1..] == [];
  }

  /** Fields with keys of their own make an object. */
  lemma EndObject(b: Budget, fields: seq<Field>, keys: set<Bytes>, text: Bytes, members: seq<Member>)
    requires SoFar(b, fields, keys, text, members)
    ensures Says(b, text + [CLOSE_OBJECT], Object(members))
  {
    hide Says, FieldsText;
    DistinctSay(b, fields, {});
    ObjectSays(b, fields);
  }

  lemma {:induction false} DistinctSay(b: Budget, fields: seq<Field>, seen: set<Bytes>)
    requires forall i :: 0 <= i < |fields| ==> Utf8.Valid(fields[i].key) && fields[i].key !in seen && Says(b, fields[i].text, fields[i].value)
    requires forall i, j :: 0 <= i < j < |fields| ==> fields[i].key != fields[j].key
    ensures FieldsSay(b, fields, seen)
    decreases |fields|
  {
    hide Says;
    if fields != [] {
      DistinctSay(b, fields[1..], seen + {fields[0].key});
    }
  }

  // ---- no two names are the same ----

  lemma NamesDiffer()
    ensures S_TEXT != S_TYPE
    ensures S_MIME != S_TYPE && S_DATA !in {S_TYPE, S_MIME}
    ensures S_DETAIL !in {S_TYPE, S_MIME, S_DATA, S_URI} && S_URI != S_TYPE
    ensures S_NAME !in {S_TYPE, S_ID} && S_ID != S_TYPE
    ensures S_ARGUMENTS !in {S_TYPE, S_ID, S_NAME}
    ensures S_CALL_ID !in {S_TYPE, S_NAME}
    ensures S_IS_ERROR !in {S_TYPE, S_NAME, S_CALL_ID}
    ensures S_CONTENT !in {S_TYPE, S_NAME, S_CALL_ID, S_IS_ERROR, S_ROLE}
  {
    assert S_TYPE[0] == 't' as int && S_TEXT[1] == 'e' as int && S_TYPE[1] == 'y' as int;
    assert S_MIME[0] == 'm' as int && S_DATA[0] == 'd' as int && S_NAME[0] == 'n' as int && S_ROLE[0] == 'r' as int;
    assert S_CALL_ID[1] == 'a' as int && S_CONTENT[1] == 'o' as int;
  }

  lemma FirstHeads()
    ensures Heads(NAME_TEXT, S_TEXT) && Heads(NAME_MIME, S_MIME) && Heads(NAME_DETAIL, S_DETAIL)
  {
    hide Heads, Ascii;
    NameHead("text", ",\"text\":");
    NameHead("mime", ",\"mime\":");
    NameHead("detail", ",\"detail\":");
  }

  lemma MoreHeads()
    ensures Heads(NAME_URI, S_URI) && Heads(NAME_ID, S_ID) && Heads(NAME_NAME, S_NAME)
  {
    hide Heads, Ascii;
    NameHead("uri", ",\"uri\":");
    NameHead("id", ",\"id\":");
    NameHead("name", ",\"name\":");
  }

  lemma CallHeads()
    ensures Heads(NAME_CALL, S_CALL_ID) && Heads(ARGUMENTS, S_ARGUMENTS)
  {
    hide Heads, Ascii;
    NameHead("call_id", ",\"call_id\":");
    NameHead("arguments", ",\"arguments\":");
  }

  lemma BlockTypes()
    ensures Opens(TYPE_TEXT, S_TEXT) && Opens(TYPE_IMAGE, S_IMAGE)
  {
    hide Opens, Ascii;
    TypeHead("text", "{\"type\":\"text\"");
    TypeHead("image", "{\"type\":\"image\"");
  }

  lemma ReasoningType()
    ensures Opens(TYPE_REASONING, S_REASONING_SUMMARY)
  {
    hide Opens, Ascii;
    TypeHead("reasoning_summary", "{\"type\":\"reasoning_summary\"");
  }

  lemma RefusalType()
    ensures Opens(TYPE_REFUSAL, S_REFUSAL)
  {
    hide Opens, Ascii;
    TypeHead("refusal", "{\"type\":\"refusal\"");
  }

  lemma ResultType()
    ensures Opens(TYPE_RESULT, S_TOOL_RESULT)
  {
    hide Opens, Ascii;
    TypeHead("tool_result", "{\"type\":\"tool_result\"");
  }

  lemma CallType()
    ensures Opens(TYPE_CALL, S_TOOL_CALL)
  {
    hide Opens, Ascii;
    TypeHead("tool_call", "{\"type\":\"tool_call\"");
  }

  // ---- contents ----

  /** A type and one text. */
  lemma OneTextSays(b: Budget, head: Bytes, kind: Bytes, text: Bytes)
    requires Opens(head, kind) && Utf8.Valid(text)
    ensures Says(b, head + JsonField(NAME_TEXT, text) + CLOSE, Object([Named(S_TYPE, kind)] + Optional(S_TEXT, text)))
  {
    FirstHeads();
    NamesDiffer();
    Closes();
    hide Says, SoFar, Ascii, JsonField, Heads, Opens;
    var f := StartObject(b, head, kind);
    f := AddText(b, f, {S_TYPE}, head, [Named(S_TYPE, kind)], NAME_TEXT, S_TEXT, text);
    EndObject(b, f, {S_TYPE} + {S_TEXT}, head + JsonField(NAME_TEXT, text), [Named(S_TYPE, kind)] + Optional(S_TEXT, text));
  }

  lemma Closes()
    ensures CLOSE == [CLOSE_OBJECT]
  {
  }

  lemma DataText(data: Bytes) returns (head: Bytes)
    ensures JsonData(data) == JsonField(head, Base64(data)) && Utf8.Valid(Base64(data)) && Heads(head, S_DATA)
  {
    Base64Plain(data);
    PlainBody(Base64(data));
    DataHead();
    hide Base64, Body, Ascii, Heads;
    head := HEAD_DATA;
    if data == [] {
      NoData(data);
    } else {
      Assoc(head, [QUOTE], Base64(data));
      Assoc(head, [QUOTE] + Base64(data), [QUOTE]);
    }
  }

  lemma DataHead()
    ensures Heads(HEAD_DATA, S_DATA) && DATA_BEGIN == HEAD_DATA + [QUOTE]
  {
    NameHead("data", ",\"data\":");
  }

  lemma NoData(data: Bytes)
    requires data == []
    ensures Base64(data) == []
  {
  }

  lemma BlockSays(b: Budget, x: Block)
    requires BlockEncodes(x)
    ensures Says(b, JsonBlock(x), BlockValue(x))
  {
    BlockTypes();
    hide Says, Ascii, JsonField, Heads, Opens, Base64, Utf8.Valid;
    match x {
      case Text(text) => OneTextSays(b, TYPE_TEXT, S_TEXT, text);
      case Image(mime, detail, data) => ImageSays(b, mime, detail, data);
    }
  }

  lemma ImageSays(b: Budget, mime: Bytes, detail: Bytes, data: Bytes)
    requires Utf8.Valid(mime) && Utf8.Valid(detail)
    ensures Says(b, JsonBlock(Image(mime, detail, data)), BlockValue(Image(mime, detail, data)))
  {
    FirstHeads();
    BlockTypes();
    NamesDiffer();
    Closes();
    var head := DataText(data);
    hide Says, SoFar, Ascii, JsonField, Body, Base64, Utf8.Valid, JsonData, Heads, Opens;
    var k1, t1, m1 := {S_TYPE}, TYPE_IMAGE, [Named(S_TYPE, S_IMAGE)];
    var f := StartObject(b, TYPE_IMAGE, S_IMAGE);
    f := AddText(b, f, k1, t1, m1, NAME_MIME, S_MIME, mime);
    var k2, t2, m2 := k1 + {S_MIME}, t1 + JsonField(NAME_MIME, mime), m1 + Optional(S_MIME, mime);
    f := AddText(b, f, k2, t2, m2, head, S_DATA, Base64(data));
    var k3, t3, m3 := k2 + {S_DATA}, t2 + JsonData(data), m2 + Optional(S_DATA, Base64(data));
    f := AddText(b, f, k3, t3, m3, NAME_DETAIL, S_DETAIL, detail);
    EndObject(b, f, k3 + {S_DETAIL}, t3 + JsonField(NAME_DETAIL, detail), m3 + Optional(S_DETAIL, detail));
  }

  // ---- results ----

  function BlockItems(blocks: seq<Block>): (r: seq<Item>)
    ensures |r| == |blocks|
  {
    seq(|blocks|, i requires 0 <= i < |blocks| => Item(JsonBlock(blocks[i]), BlockValue(blocks[i])))
  }

  lemma {:induction false} BlockTextAt(blocks: seq<Block>, i: nat)
    requires i < |blocks|
    ensures JsonBlocks(blocks)[i] == JsonBlock(blocks[i])
  {
    hide JsonBlock;
    if i > 0 {
      BlockTextAt(blocks[1..], i - 1);
    }
  }

  lemma BlockTexts(blocks: seq<Block>)
    ensures JsonBlocks(blocks) == Texts(BlockItems(blocks)) && BlockValues(blocks) == Values(BlockItems(blocks))
  {
    hide JsonBlock, BlockValue, JsonBlocks;
    forall i | 0 <= i < |blocks| ensures JsonBlocks(blocks)[i] == Texts(BlockItems(blocks))[i] {
      BlockTextAt(blocks, i);
    }
  }

  lemma ChildrenSay(b: Budget, blocks: seq<Block>)
    requires forall i :: 0 <= i < |blocks| ==> BlockEncodes(blocks[i])
    ensures Says(b, [OPEN_ARRAY] + Join(JsonBlocks(blocks)) + [CLOSE_ARRAY], Array(BlockValues(blocks)))
  {
    hide Says, JsonBlock, BlockValue, Join, BlockEncodes;
    BlockTexts(blocks);
    forall i | 0 <= i < |blocks| ensures Says(b, BlockItems(blocks)[i].text, BlockItems(blocks)[i].value) {
      BlockSays(b, blocks[i]);
    }
    ArraySays(b, BlockItems(blocks));
  }

  /** The name of the contents, and of the flag. */
  lemma ContentHead() returns (head: Bytes)
    ensures Heads(head, S_CONTENT) && head == HEAD_CONTENT && CONTENT_BEGIN == head + [OPEN_ARRAY]
  {
    NameHead("content", ",\"content\":");
    head := HEAD_CONTENT;
  }

  lemma FlagHead() returns (head: Bytes)
    ensures Heads(head, S_IS_ERROR) && IS_ERROR == head + TRUE
  {
    FlagText4();
    hide Heads, Ascii;
    NameHead("is_error", ",\"is_error\":");
    head := HEAD_ERROR;
  }

  lemma FlagText4()
    ensures IS_ERROR == HEAD_ERROR + TRUE
  {
    AsciiAdds(",\"is_error\":", "true");
    assert Ascii("true") == TRUE;
    hide Ascii;
    assert ",\"is_error\":" + "true" == ",\"is_error\":true";
  }

  lemma AddFlag(b: Budget, fields: seq<Field>, keys: set<Bytes>, text: Bytes, members: seq<Member>, isError: bool) returns (more: seq<Field>)
    requires SoFar(b, fields, keys, text, members) && S_IS_ERROR !in keys
    ensures SoFar(b, more, keys + {S_IS_ERROR}, text + FlagText(isError), members + FlagMember(isError))
  {
    var flag := FlagHead();
    TrueSays(b);
    hide Says, Ascii, Heads, FieldsText, Members, Utf8.Valid;
    if isError {
      hide SoFar;
      more := AddValue(b, fields, keys, text, members, flag, S_IS_ERROR, TRUE, Bool(true));
    } else {
      more := fields;
      assert text + [] == text && members + [] == members;
    }
  }

  lemma NamesSoFar(b: Budget, r: ToolResult) returns (f: seq<Field>)
    requires Utf8.Valid(r.name) && Utf8.Valid(r.callID)
    ensures SoFar(b, f, {S_TYPE, S_NAME, S_CALL_ID}, NamesText(r), NamesMembers(r))
  {
    MoreHeads();
    CallHeads();
    ResultType();
    NamesDiffer();
    hide Says, SoFar, Ascii, JsonField, Utf8.Valid, Heads, Opens, OpensWith;
    var k1, t1, m1 := {S_TYPE}, TYPE_RESULT, [Named(S_TYPE, S_TOOL_RESULT)];
    f := StartObject(b, TYPE_RESULT, S_TOOL_RESULT);
    f := AddText(b, f, k1, t1, m1, NAME_NAME, S_NAME, r.name);
    var k2, t2, m2 := k1 + {S_NAME}, t1 + JsonField(NAME_NAME, r.name), m1 + Optional(S_NAME, r.name);
    f := AddText(b, f, k2, t2, m2, NAME_CALL, S_CALL_ID, r.callID);
    assert k2 + {S_CALL_ID} == {S_TYPE, S_NAME, S_CALL_ID};
  }

  function FlagText(isError: bool): Bytes
  {
    if isError then IS_ERROR else []
  }

  function FlagMember(isError: bool): seq<Member>
  {
    if isError then [Member(S_IS_ERROR, Bool(true))] else []
  }

  function NamesText(r: ToolResult): Bytes
  {
    TYPE_RESULT + JsonField(NAME_NAME, r.name) + JsonField(NAME_CALL, r.callID)
  }

  function NamesMembers(r: ToolResult): seq<Member>
  {
    [Named(S_TYPE, S_TOOL_RESULT)] + Optional(S_NAME, r.name) + Optional(S_CALL_ID, r.callID)
  }

  lemma ResultForm(r: ToolResult)
    requires ResultEncodes(r)
    ensures Utf8.Valid(r.name) && Utf8.Valid(r.callID) && forall i :: 0 <= i < |r.children| ==> BlockEncodes(r.children[i])
    ensures JsonResult(r) == NamesText(r) + FlagText(r.isError) + (CONTENT_BEGIN + Join(JsonBlocks(r.children)) + [93]) + CLOSE
    ensures ResultValue(r) == Object(NamesMembers(r) + FlagMember(r.isError) + [Member(S_CONTENT, Array(BlockValues(r.children)))])
  {
    hide BlockEncodes, Join, JsonBlocks, JsonField, Ascii, Utf8.Valid, BlockValues;
  }

  lemma ResultNamesDiffer() returns (keys: set<Bytes>)
    ensures keys == {S_TYPE, S_NAME, S_CALL_ID} && S_IS_ERROR !in keys && S_CONTENT !in keys + {S_IS_ERROR}
  {
    NamesDiffer();
    keys := {S_TYPE, S_NAME, S_CALL_ID};
  }

  lemma ResultSays(b: Budget, r: ToolResult)
    requires ResultEncodes(r)
    ensures Says(b, JsonResult(r), ResultValue(r))
  {
    ResultForm(r);
    hide *;
    ChildrenSay(b, r.children);
    NamedResultSays(b, r, JsonBlocks(r.children), BlockValues(r.children));
  }

  lemma NamedResultSays(b: Budget, r: ToolResult, texts: seq<Bytes>, values: seq<Value>)
    requires Utf8.Valid(r.name) && Utf8.Valid(r.callID) && Says(b, [OPEN_ARRAY] + Join(texts) + [CLOSE_ARRAY], Array(values))
    ensures Says(b, NamesText(r) + FlagText(r.isError) + (CONTENT_BEGIN + Join(texts) + [93]) + CLOSE,
                 Object(NamesMembers(r) + FlagMember(r.isError) + [Member(S_CONTENT, Array(values))]))
  {
    hide *;
    var keys := ResultNamesDiffer();
    var f := NamesSoFar(b, r);
    f := AddFlag(b, f, keys, NamesText(r), NamesMembers(r), r.isError);
    EndWithContent(b, f, keys + {S_IS_ERROR}, NamesText(r) + FlagText(r.isError), NamesMembers(r) + FlagMember(r.isError), texts, values);
  }

  /** The last field of a result: its contents. */
  lemma EndWithContent(b: Budget, fields: seq<Field>, keys: set<Bytes>, text: Bytes, members: seq<Member>, texts: seq<Bytes>, values: seq<Value>)
    requires SoFar(b, fields, keys, text, members) && S_CONTENT !in keys
    requires Says(b, [OPEN_ARRAY] + Join(texts) + [CLOSE_ARRAY], Array(values))
    ensures Says(b, text + (CONTENT_BEGIN + Join(texts) + [93]) + CLOSE, Object(members + [Member(S_CONTENT, Array(values))]))
  {
    Closes();
    var content := ContentHead();
    hide Says, SoFar, Ascii, Heads, Join;
    var list := [OPEN_ARRAY] + Join(texts) + [CLOSE_ARRAY];
    var f := AddValue(b, fields, keys, text, members, content, S_CONTENT, list, Array(values));
    EndObject(b, f, keys + {S_CONTENT}, text + (content + list), members + [Member(S_CONTENT, Array(values))]);
    ArrayText(content, Join(texts));
  }

  lemma ArrayText(content: Bytes, list: Bytes)
    ensures content + ([OPEN_ARRAY] + list + [CLOSE_ARRAY]) == (content + [OPEN_ARRAY]) + list + [CLOSE_ARRAY]
  {
    Assoc(content, [OPEN_ARRAY] + list, [CLOSE_ARRAY]);
    Assoc(content, [OPEN_ARRAY], list);
  }

  // ---- messages ----

  /** Whatever is taken for the arguments of a call can be read in its place. */
  ghost predicate ArgumentsSay(b: Budget, read: Bytes -> Value, p: Part)
  {
    p.Call? ==> Says(b, p.arguments, read(p.arguments))
  }

  lemma PartSays(b: Budget, checks: Checks, read: Bytes -> Value, p: Part)
    requires PartEncodes(checks, p) && ArgumentsSay(b, read, p)
    ensures Says(b, JsonPart(p), PartValue(read, p))
  {
    ReasoningType();
    RefusalType();
    hide Says, Ascii, JsonField, Utf8.Valid, Heads, Opens, BlockEncodes, ResultEncodes, JsonBlock, JsonResult, ResultValue, BlockValue;
    match p
    case Shown(x) => BlockSays(b, x);
    case Result(r) => ResultSays(b, r);
    case Reasoning(text) => OneTextSays(b, TYPE_REASONING, S_REASONING_SUMMARY, text);
    case Refusal(text) => OneTextSays(b, TYPE_REFUSAL, S_REFUSAL, text);
    case Link(uri, detail) => LinkSays(b, read, uri, detail);
    case Call(id, name, arguments) => CallSays(b, read, id, name, arguments);
  }

  lemma LinkSays(b: Budget, read: Bytes -> Value, uri: Bytes, detail: Bytes)
    requires Utf8.Valid(uri) && Utf8.Valid(detail)
    ensures Says(b, JsonPart(Link(uri, detail)), PartValue(read, Link(uri, detail)))
  {
    FirstHeads();
    MoreHeads();
    BlockTypes();
    NamesDiffer();
    Closes();
    hide Says, SoFar, Ascii, JsonField, Utf8.Valid, Heads, Opens;
    var k1, t1, m1 := {S_TYPE}, TYPE_IMAGE, [Named(S_TYPE, S_IMAGE)];
    var f := StartObject(b, TYPE_IMAGE, S_IMAGE);
    f := AddText(b, f, k1, t1, m1, NAME_URI, S_URI, uri);
    var k2, t2, m2 := k1 + {S_URI}, t1 + JsonField(NAME_URI, uri), m1 + Optional(S_URI, uri);
    f := AddText(b, f, k2, t2, m2, NAME_DETAIL, S_DETAIL, detail);
    EndObject(b, f, k2 + {S_DETAIL}, t2 + JsonField(NAME_DETAIL, detail), m2 + Optional(S_DETAIL, detail));
  }

  lemma CallSays(b: Budget, read: Bytes -> Value, id: Bytes, name: Bytes, arguments: Bytes)
    requires Utf8.Valid(id) && Utf8.Valid(name) && Says(b, arguments, read(arguments))
    ensures Says(b, JsonPart(Call(id, name, arguments)), PartValue(read, Call(id, name, arguments)))
  {
    MoreHeads();
    CallHeads();
    CallType();
    NamesDiffer();
    Closes();
    hide Says, SoFar, Ascii, JsonField, Utf8.Valid, Heads, Opens;
    var k1, t1, m1 := {S_TYPE}, TYPE_CALL, [Named(S_TYPE, S_TOOL_CALL)];
    var f := StartObject(b, TYPE_CALL, S_TOOL_CALL);
    f := AddText(b, f, k1, t1, m1, NAME_ID, S_ID, id);
    var k2, t2, m2 := k1 + {S_ID}, t1 + JsonField(NAME_ID, id), m1 + Optional(S_ID, id);
    f := AddText(b, f, k2, t2, m2, NAME_NAME, S_NAME, name);
    var k3, t3, m3 := k2 + {S_NAME}, t2 + JsonField(NAME_NAME, name), m2 + Optional(S_NAME, name);
    f := AddValue(b, f, k3, t3, m3, ARGUMENTS, S_ARGUMENTS, arguments, read(arguments));
    EndObject(b, f, k3 + {S_ARGUMENTS}, t3 + (ARGUMENTS + arguments), m3 + [Member(S_ARGUMENTS, read(arguments))]);
  }

  function PartItems(read: Bytes -> Value, parts: seq<Part>): (r: seq<Item>)
    ensures |r| == |parts|
  {
    seq(|parts|, i requires 0 <= i < |parts| => Item(JsonPart(parts[i]), PartValue(read, parts[i])))
  }

  lemma {:induction false} PartTextAt(parts: seq<Part>, i: nat)
    requires i < |parts|
    ensures JsonParts(parts)[i] == JsonPart(parts[i])
  {
    hide JsonPart;
    var n := |parts| - 1;
    if i < n {
      PartTextAt(parts[..n], i);
    }
  }

  lemma PartTexts(read: Bytes -> Value, parts: seq<Part>)
    ensures JsonParts(parts) == Texts(PartItems(read, parts)) && PartValues(read, parts) == Values(PartItems(read, parts))
  {
    hide JsonPart, PartValue, JsonParts;
    forall i | 0 <= i < |parts| ensures JsonParts(parts)[i] == Texts(PartItems(read, parts))[i] {
      PartTextAt(parts, i);
    }
  }

  lemma PartsSay(b: Budget, checks: Checks, read: Bytes -> Value, parts: seq<Part>)
    requires forall i :: 0 <= i < |parts| ==> PartEncodes(checks, parts[i]) && ArgumentsSay(b, read, parts[i])
    ensures Says(b, [OPEN_ARRAY] + Join(JsonParts(parts)) + [CLOSE_ARRAY], Array(PartValues(read, parts)))
  {
    hide Says, JsonPart, PartValue, Join, PartEncodes, ArgumentsSay;
    PartTexts(read, parts);
    forall i | 0 <= i < |parts| ensures Says(b, PartItems(read, parts)[i].text, PartItems(read, parts)[i].value) {
      PartSays(b, checks, read, parts[i]);
    }
    ArraySays(b, PartItems(read, parts));
  }

  lemma AsciiAdds(a: string, b: string)
    requires forall i :: 0 <= i < |a| ==> a[i] < '\U{80}'
    requires forall i :: 0 <= i < |b| ==> b[i] < '\U{80}'
    ensures forall i :: 0 <= i < |a + b| ==> (a + b)[i] < '\U{80}'
    ensures Ascii(a + b) == Ascii(a) + Ascii(b)
  {
  }

  /** The beginning of a message: the role, then the name of the contents. */
  lemma UserText() returns (head: Bytes, content: Bytes)
    ensures OpensWith(head, S_ROLE, S_USER) && Heads(content, S_CONTENT)
    ensures MESSAGE_BEGIN == head + content + [OPEN_ARRAY]
  {
    head := UserHead();
    content := ContentHead();
    UserBegins();
  }

  lemma UserHead() returns (head: Bytes)
    ensures OpensWith(head, S_ROLE, S_USER) && head == HEAD_USER
  {
    hide OpensWith, Ascii;
    FirstHead("role", "user", "{\"role\":\"user\"");
    head := HEAD_USER;
  }

  lemma UserBegins()
    ensures MESSAGE_BEGIN == HEAD_USER + HEAD_CONTENT + [OPEN_ARRAY]
  {
    AsciiAdds("{\"role\":\"user\"", ",\"content\":");
    AsciiAdds("{\"role\":\"user\",\"content\":", "[");
    assert Ascii("[") == [OPEN_ARRAY];
    hide Ascii;
    assert "{\"role\":\"user\"" + ",\"content\":" == "{\"role\":\"user\",\"content\":";
    assert "{\"role\":\"user\",\"content\":" + "[" == "{\"role\":\"user\",\"content\":[";
  }

  lemma AssistantText() returns (head: Bytes, content: Bytes)
    ensures OpensWith(head, S_ROLE, S_ASSISTANT) && Heads(content, S_CONTENT)
    ensures ASSISTANT_BEGIN == head + content + [OPEN_ARRAY]
  {
    head := AssistantHead();
    content := ContentHead();
    AssistantBegins();
  }

  lemma AssistantHead() returns (head: Bytes)
    ensures OpensWith(head, S_ROLE, S_ASSISTANT) && head == HEAD_ASSISTANT
  {
    hide OpensWith, Ascii;
    FirstHead("role", "assistant", "{\"role\":\"assistant\"");
    head := HEAD_ASSISTANT;
  }

  lemma AssistantBegins()
    ensures ASSISTANT_BEGIN == HEAD_ASSISTANT + HEAD_CONTENT + [OPEN_ARRAY]
  {
    AsciiAdds("{\"role\":\"assistant\"", ",\"content\":");
    AsciiAdds("{\"role\":\"assistant\",\"content\":", "[");
    assert Ascii("[") == [OPEN_ARRAY];
    hide Ascii;
    assert "{\"role\":\"assistant\"" + ",\"content\":" == "{\"role\":\"assistant\",\"content\":";
    assert "{\"role\":\"assistant\",\"content\":" + "[" == "{\"role\":\"assistant\",\"content\":[";
  }

  /** The JSON form of every message that can be encoded parses, within budgets that have the
      room, to the value that holds each of its contents with every field under its name. */
  lemma MessageReads(b: Budget, checks: Checks, read: Bytes -> Value, sender: Sender, parts: seq<Part>)
    requires Encodes(checks, sender, parts) && forall i :: 0 <= i < |parts| ==> ArgumentsSay(b, read, parts[i])
    requires var v := MessageValue(read, sender, parts); Depth(v) <= b.maxDepth && Nodes(v) <= b.maxNodes
    ensures Parse(b, JsonText(sender, parts)) == Some(MessageValue(read, sender, parts))
  {
    MessageSays(b, checks, read, sender, parts);
    hide Says, MessageValue, JsonText, Depth, Nodes, Parse;
    SaysParses(b, JsonText(sender, parts), MessageValue(read, sender, parts));
  }

  lemma MessageSays(b: Budget, checks: Checks, read: Bytes -> Value, sender: Sender, parts: seq<Part>)
    requires Encodes(checks, sender, parts) && forall i :: 0 <= i < |parts| ==> ArgumentsSay(b, read, parts[i])
    ensures Says(b, JsonText(sender, parts), MessageValue(read, sender, parts))
  {
    PartsSay(b, checks, read, parts);
    Ends();
    hide Says, Ascii, OpensWith, Heads, Join, JsonParts, PartValues, Encodes;
    var role := (if sender.FromUser? then S_USER else S_ASSISTANT);
    var head: Bytes, content: Bytes;
    if sender.FromUser? {
      head, content := UserText();
    } else {
      head, content := AssistantText();
    }
    RoleSays(b, head, content, role, Join(JsonParts(parts)), Array(PartValues(read, parts)));
  }

  lemma Ends()
    ensures CONTENT_END == [CLOSE_ARRAY, CLOSE_OBJECT]
  {
  }

  lemma RoleSays(b: Budget, head: Bytes, content: Bytes, role: Bytes, list: Bytes, contents: Value)
    requires OpensWith(head, S_ROLE, role) && Heads(content, S_CONTENT) && Says(b, [OPEN_ARRAY] + list + [CLOSE_ARRAY], contents)
    ensures Says(b, head + content + [OPEN_ARRAY] + list + [CLOSE_ARRAY, CLOSE_OBJECT], Object([Named(S_ROLE, role), Member(S_CONTENT, contents)]))
  {
    NamesDiffer();
    hide Says, Ascii, JsonString, SoFar, Heads, Utf8.Valid;
    StringSays(b, role);
    var f := Field(S_ROLE, JsonString(role), Str(role));
    OneField(b, f, head);
    var all := [OPEN_ARRAY] + list + [CLOSE_ARRAY];
    var fields := AddValue(b, [f], {S_ROLE}, head, [Member(f.key, f.value)], content, S_CONTENT, all, contents);
    EndObject(b, fields, {S_ROLE} + {S_CONTENT}, head + (content + all), [Member(f.key, f.value)] + [Member(S_CONTENT, contents)]);
    RoleEnd(head, content, list);
    assert [Member(f.key, f.value)] + [Member(S_CONTENT, contents)] == [Named(S_ROLE, role), Member(S_CONTENT, contents)];
  }

  lemma RoleEnd(head: Bytes, content: Bytes, list: Bytes)
    ensures head + (content + ([OPEN_ARRAY] + list + [CLOSE_ARRAY])) + [CLOSE_OBJECT]
      == head + content + [OPEN_ARRAY] + list + [CLOSE_ARRAY, CLOSE_OBJECT]
  {
  }

  // ---- the data of an image ----

  /** The value of a character of Base64; nothing for padding. */
  function Value64(b: byte): (v: nat)
    ensures v < 64
  {
    if 65 <= b <= 90 then b - 65 else if 97 <= b <= 122 then b - 71 else if 48 <= b <= 57 then b + 4 else if b == 43 then 62 else if b == 47 then 63 else 0
  }

  /** The characters stand in the order of their values: capitals, small letters, figures, the
      plus sign and the slash. */
  lemma Alphabet64(v: nat)
    requires v < 64
    ensures Value64(Digit64(v)) == v && Digit64(v) != 61
    ensures Digit64(0) == 'A' as int && Digit64(25) == 'Z' as int && Digit64(26) == 'a' as int && Digit64(51) == 'z' as int
    ensures Digit64(52) == '0' as int && Digit64(61) == '9' as int && Digit64(62) == '+' as int && Digit64(63) == '/' as int
    ensures v < 63 && v !in {25, 51, 61, 62} ==> Digit64(v + 1) == Digit64(v) + 1
  {
  }

  /** Four characters give one to three bytes, fewer for each sign of padding. */
  function Decode64(s: Bytes): Bytes
  {
    if |s| < 4 then []
    else
      var x := Value64(s[0]) * 262144 + Value64(s[1]) * 4096 + Value64(s[2]) * 64 + Value64(s[3]);
      [x / 65536 % 256] + (if s[2] == 61 then [] else [x / 256 % 256]) + (if s[3] == 61 then [] else [x % 256]) + Decode64(s[4..])
  }

  /** Decoding gives the data of an image back. */
  lemma {:induction false} Base64RoundTrip(data: Bytes)
    ensures Decode64(Base64(data)) == data
  {
    if data != [] {
      var n := if |data| < 3 then |data| else 3;
      GroupReads(data);
      hide Group64;
      var group, rest := Group64(data), if |data| <= 3 then [] else Base64(data[3..]);
      assert Base64(data) == group + rest;
      assert (group + rest)[4..] == rest && (group + rest)[..4] == group;
      assert forall i :: 0 <= i < 4 ==> (group + rest)[i] == group[i];
      if |data| > 3 {
        Base64RoundTrip(data[3..]);
      }
      GroupFirst(group, rest);
      assert data == data[..n] + data[n..];
    }
  }

  lemma GroupFirst(group: Bytes, rest: Bytes)
    requires |group| == 4
    ensures Decode64(group + rest) == Decode64(group) + Decode64(rest)
  {
    assert (group + rest)[4..] == rest && group[4..] == [];
    assert forall i :: 0 <= i < 4 ==> (group + rest)[i] == group[i];
  }

  lemma GroupReads(data: Bytes)
    requires data != []
    ensures Decode64(Group64(data)) == if |data| < 3 then data else data[..3]
  {
    var b := data[1..] + [0, 0];
    var group: nat := Whole(data[0], b[0], b[1]);
    var n := if |data| < 3 then |data| else 3;
    ThreeParts(data[0], b[0], b[1]);
    GroupDigits(data, group);
    hide Group64, Digit64, Value64, Decode64, Whole;
    FourDigits(Group64(data), group, n);
    var all := [group / 65536 % 256, group / 256 % 256, group % 256];
    assert all == [data[0], b[0], b[1]];
    forall i | 0 <= i < n ensures all[i] == data[i] {
      if i > 0 { assert b[i - 1] == data[i]; }
    }
    assert all[..n] == data[..n];
  }

  /** The four characters of a group are the digits of its number, or padding. */
  lemma GroupDigits(data: Bytes, group: nat)
    requires data != [] && group < 16777216
    requires var b := data[1..] + [0, 0]; group == Whole(data[0], b[0], b[1])
    ensures var g := Group64(data);
      && Value64(g[0]) == group / 262144 % 64 && Value64(g[1]) == group / 4096 % 64
      && Value64(g[2]) == group / 64 % 64 && Value64(g[3]) == group % 64
      && (g[2] == 61 <==> |data| < 2) && (g[3] == 61 <==> |data| < 3)
  {
    var b := data[1..] + [0, 0];
    Alphabet64(group / 262144 % 64);
    Alphabet64(group / 4096 % 64);
    Alphabet64(group / 64 % 64);
    Alphabet64(group % 64);
    Padding();
    hide Digit64, Value64;
    if |data| < 3 {
      assert b[1] == 0;
      LowDigits(data[0], b[0], |data| < 2);
    }
  }

  lemma LowDigits(x: nat, y: nat, one: bool)
    requires one ==> y == 0
    ensures Whole(x, y, 0) % 64 == 0 && (one ==> Whole(x, y, 0) / 64 % 64 == 0)
  {
    assert Whole(x, y, 0) == 64 * (x * 1024 + y * 4);
    if one {
      assert Whole(x, 0, 0) / 64 == x * 1024;
    }
  }

  function Whole(x: int, y: int, z: int): int
  {
    x * 65536 + y * 256 + z
  }

  /** Four characters of a group and the bytes they stand for. */
  lemma FourDigits(g: Bytes, group: nat, n: nat)
    requires |g| == 4 && group < 16777216 && 1 <= n <= 3
    requires Value64(g[0]) * 262144 + Value64(g[1]) * 4096 + Value64(g[2]) * 64 + Value64(g[3]) == group
    requires (g[2] == 61 <==> n < 2) && (g[3] == 61 <==> n < 3)
    ensures Decode64(g) == [group / 65536 % 256, group / 256 % 256, group % 256][..n]
  {
    hide Value64;
    assert g[4..] == [];
    var all := [group / 65536 % 256, group / 256 % 256, group % 256];
    assert all[..1] == [all[0]] && all[..2] == [all[0], all[1]] && all[..3] == all;
    assert Decode64([]) == [];
  }

  lemma Padding()
    ensures Value64(61) == 0
  {
  }

  lemma ThreeParts(x: nat, y: nat, z: nat)
    requires x < 256 && y < 256 && z < 256
    ensures var g := Whole(x, y, z);
      && 0 <= g < 16777216
      && g / 65536 % 256 == x && g / 256 % 256 == y && g % 256 == z
      && g / 262144 % 64 * 262144 + g / 4096 % 64 * 4096 + g / 64 % 64 * 64 + g % 64 == g
  {
    var g := Whole(x, y, z);
    Split256(x * 256 + y, z);
    Split256(x, y);
    assert g == (x * 256 + y) * 256 + z;
    hide Whole;
    assert g / 65536 == x by { Twice256(g); }
    SixBits(g);
  }

  lemma Split256(a: nat, b: nat)
    requires b < 256
    ensures (a * 256 + b) / 256 == a && (a * 256 + b) % 256 == b
  {
  }

  lemma Twice256(g: nat)
    ensures g / 65536 == g / 256 / 256
  {
  }

  lemma SixBits(g: nat)
    requires g < 16777216
    ensures g / 262144 % 64 * 262144 + g / 4096 % 64 * 4096 + g / 64 % 64 * 64 + g % 64 == g
  {
    var a := g / 64;
    var b := a / 64;
    assert g == 64 * a + g % 64 && a == 64 * b + a % 64 && b == 64 * (b / 64) + b % 64;
    assert b == g / 4096 && b / 64 == g / 262144 && b / 64 < 64;
  }
}
