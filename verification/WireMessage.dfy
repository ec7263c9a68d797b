/** The JSON form of any message and its exact size: every kind of content in user and assistant
    messages (internal/sessionwire/message.go:29-60, 218-303, core/models/message.go:64-85,
    core/models/content.go:132-211). */
module WireMessage {
  import opened Utf8
  import opened Int64
  import opened Frame
  import opened Wire

  datatype Part =
    | Shown(block: Block)
    | Link(uri: Bytes, detail: Bytes)
    | Reasoning(text: Bytes)
    | Refusal(text: Bytes)
    | Call(id: Bytes, name: Bytes, arguments: Bytes)
    | Result(result: ToolResult)

  datatype Sender = FromUser | FromAssistant(hasState: bool)

  /** Which texts are JSON objects and which addresses are absolute. */
  datatype Checks = Checks(isObject: Bytes -> bool, isAbsolute: Bytes -> bool)

  const TYPE_REASONING: Bytes := Ascii("{\"type\":\"reasoning_summary\"")
  const TYPE_REFUSAL: Bytes := Ascii("{\"type\":\"refusal\"")
  const TYPE_CALL: Bytes := Ascii("{\"type\":\"tool_call\"")
  const NAME_URI: Bytes := Ascii(",\"uri\":")
  const NAME_ID: Bytes := Ascii(",\"id\":")
  const ARGUMENTS: Bytes := Ascii(",\"arguments\":")
  const ASSISTANT_BEGIN: Bytes := Ascii("{\"role\":\"assistant\",\"content\":[")

  function JsonPart(p: Part): Bytes
  {
    match p
    case Shown(b) => JsonBlock(b)
    case Link(uri, detail) => TYPE_IMAGE + JsonField(NAME_URI, uri) + JsonField(NAME_DETAIL, detail) + CLOSE
    case Reasoning(text) => TYPE_REASONING + JsonField(NAME_TEXT, text) + CLOSE
    case Refusal(text) => TYPE_REFUSAL + JsonField(NAME_TEXT, text) + CLOSE
    case Call(id, name, arguments) => TYPE_CALL + JsonField(NAME_ID, id) + JsonField(NAME_NAME, name) + (ARGUMENTS + arguments) + CLOSE
    case Result(r) => JsonResult(r)
  }

  function JsonParts(parts: seq<Part>): (r: seq<Bytes>)
    ensures |r| == |parts|
  {
    if parts == [] then [] else JsonParts(parts[..|parts| - 1]) + [JsonPart(parts[|parts| - 1])]
  }

  function JsonText(sender: Sender, parts: seq<Part>): Bytes
  {
    (if sender.FromUser? then MESSAGE_BEGIN else ASSISTANT_BEGIN) + Join(JsonParts(parts)) + CONTENT_END
  }

  /** What validation and the encoder demand of a content. */
  ghost predicate PartEncodes(checks: Checks, p: Part)
  {
    match p
    case Shown(b) => BlockEncodes(b)
    case Link(uri, detail) => uri != [] && checks.isAbsolute(uri) && detail in DETAILS && Valid(uri) && Valid(detail)
    case Reasoning(text) => Valid(text)
    case Refusal(text) => Valid(text)
    case Call(id, name, arguments) => name != [] && checks.isObject(arguments) && Valid(id) && Valid(name)
    case Result(r) => ResultEncodes(r)
  }

  /** Only an assistant that carries a provider's state may say nothing. */
  ghost predicate Encodes(checks: Checks, sender: Sender, parts: seq<Part>)
  {
    && (parts == [] ==> sender.FromAssistant? && sender.hasState)
    && forall i :: 0 <= i < |parts| ==> PartEncodes(checks, parts[i])
  }

  /** One text after a type, as reasoning and refusals have it. */
  method TextContent(e: FragmentEncoder, head: Bytes, text: Bytes)
    requires e.Good()
    modifies e
    ensures e.Good() && e.View() == if Valid(text) then Feed(old(e.View()), head + JsonField(NAME_TEXT, text) + CLOSE) else TooLong
  {
    hide Feed, JsonField, Valid, Ascii;
    ghost var base, t := e.View(), JsonField(NAME_TEXT, text);
    FeedTwo(base, head, t);
    FeedTwo(base, head + t, CLOSE);
    e.Write(head);
    e.Field(NAME_TEXT, text);
    StaysFailed(e.View(), CLOSE);
    e.Write(CLOSE);
  }

  method LinkContent(e: FragmentEncoder, uri: Bytes, detail: Bytes)
    requires e.Good()
    modifies e
    ensures e.Good()
    ensures e.View() == if Valid(uri) && Valid(detail) then Feed(old(e.View()), JsonPart(Link(uri, detail))) else TooLong
  {
    hide Feed, JsonField, Valid, Ascii;
    ghost var base, u, d := e.View(), JsonField(NAME_URI, uri), JsonField(NAME_DETAIL, detail);
    FeedTwo(base, TYPE_IMAGE, u);
    FeedTwo(base, TYPE_IMAGE + u, d);
    FeedTwo(base, TYPE_IMAGE + u + d, CLOSE);
    e.Write(TYPE_IMAGE);
    e.Field(NAME_URI, uri);
    StaysFailed(e.View(), d);
    e.Field(NAME_DETAIL, detail);
    StaysFailed(e.View(), CLOSE);
    e.Write(CLOSE);
  }

  method CallContent(e: FragmentEncoder, id: Bytes, name: Bytes, arguments: Bytes)
    requires e.Good()
    modifies e
    ensures e.Good()
    ensures e.View() == if Valid(id) && Valid(name) then Feed(old(e.View()), JsonPart(Call(id, name, arguments))) else TooLong
  {
    hide Feed, JsonField, Valid, Ascii;
    ghost var base, i, n := e.View(), JsonField(NAME_ID, id), JsonField(NAME_NAME, name);
    ghost var head := TYPE_CALL + i + n;
    FeedTwo(base, TYPE_CALL, i);
    FeedTwo(base, TYPE_CALL + i, n);
    FeedTwo(base, head, ARGUMENTS);
    FeedTwo(base, head + ARGUMENTS, arguments);
    FeedTwo(base, head + ARGUMENTS + arguments, CLOSE);
    Assoc(head, ARGUMENTS, arguments);
    e.Write(TYPE_CALL);
    e.Field(NAME_ID, id);
    StaysFailed(e.View(), n);
    e.Field(NAME_NAME, name);
    StaysFailed(e.View(), ARGUMENTS);
    e.Write(ARGUMENTS);
    StaysFailed(e.View(), arguments);
    e.Write(arguments);
    StaysFailed(e.View(), CLOSE);
    e.Write(CLOSE);
  }

  /** content. */
  method Content(e: FragmentEncoder, checks: Checks, p: Part)
    requires e.Good()
    modifies e
    ensures e.Good() && e.View() == if PartEncodes(checks, p) then Feed(old(e.View()), JsonPart(p)) else TooLong
  {
    hide Feed, JsonField, JsonBlock, JsonResult, Valid, BlockEncodes, ResultEncodes, Ascii;
    match p
    case Shown(b) => e.BlockContent(b);
    case Reasoning(text) => TextContent(e, TYPE_REASONING, text);
    case Refusal(text) => TextContent(e, TYPE_REFUSAL, text);
    case Result(r) => e.ResultContent(r);
    case Link(uri, detail) =>
      if uri == [] || !checks.isAbsolute(uri) || detail !in DETAILS {
        e.failed := true;
      } else {
        LinkContent(e, uri, detail);
      }
    case Call(id, name, arguments) =>
      if name == [] || !checks.isObject(arguments) {
        e.failed := true;
      } else {
        CallContent(e, id, name, arguments);
      }
  }

  /** The contents of a message, separated by commas. */
  method Contents(e: FragmentEncoder, checks: Checks, parts: seq<Part>)
    requires e.Good()
    modifies e
    ensures e.Good()
    ensures e.View() == if forall i :: 0 <= i < |parts| ==> PartEncodes(checks, parts[i])
                        then Feed(old(e.View()), Join(JsonParts(parts))) else TooLong
  {
    hide Feed, JsonPart, PartEncodes, Join, JsonParts;
    NoParts();
    ghost var base := e.View();
    FeedEmpty(base);
    assert parts[..0] == [];
    for i := 0 to |parts|
      invariant e.Good()
      invariant e.View() == if forall j :: 0 <= j < i ==> PartEncodes(checks, parts[j])
                            then Feed(base, Join(JsonParts(parts[..i]))) else TooLong
    {
      ghost var sofar, here := Join(JsonParts(parts[..i])), JsonPart(parts[i]);
      JoinParts(parts, i);
      FeedTwo(base, sofar, [COMMA]);
      FeedTwo(base, sofar + [COMMA], here);
      StaysFailed(e.View(), [COMMA]);
      if i > 0 {
        e.Write([COMMA]);
      }
      StaysFailed(e.View(), here);
      Content(e, checks, parts[i]);
    }
    assert parts[..|parts|] == parts;
  }

  lemma NoParts()
    ensures Join(JsonParts([])) == []
  {
  }

  lemma JoinParts(parts: seq<Part>, i: nat)
    requires i < |parts|
    ensures Join(JsonParts(parts[..i + 1]))
      == if i == 0 then JsonPart(parts[0]) else Join(JsonParts(parts[..i])) + [COMMA] + JsonPart(parts[i])
  {
    hide JsonPart, Join;
    assert parts[..i + 1][..i] == parts[..i];
    JoinSnocItems(JsonParts(parts[..i]), JsonPart(parts[i]));
  }

  /** MessageFragmentSize: the length of a message's JSON text, without building it; nothing when
      the message is invalid or its length leaves 64 bits. */
  method MessageFragmentSize(checks: Checks, sender: Sender, parts: seq<Part>) returns (r: Checked)
    ensures r == if Encodes(checks, sender, parts) && |JsonText(sender, parts)| <= MAX_INT64 then Exact(|JsonText(sender, parts)|) else Overflow
  {
    hide Feed, Join, JsonParts, PartEncodes, Ascii;
    if parts == [] && (sender.FromUser? || !sender.hasState) {
      return Overflow;
    }
    var e := new FragmentEncoder();
    ghost var list := Join(JsonParts(parts));
    var head := if sender.FromUser? then MESSAGE_BEGIN else ASSISTANT_BEGIN;
    FeedTwo(Fed([]), head, list);
    FeedTwo(Fed([]), head + list, CONTENT_END);
    e.Write(head);
    Contents(e, checks, parts);
    StaysFailed(e.View(), CONTENT_END);
    e.Write(CONTENT_END);
    FedFromNothing(JsonText(sender, parts));
    r := if e.failed then Overflow else Exact(e.count);
  }

  // ---- messages of tool results ----

  function ResultParts(results: seq<ToolResult>): (r: seq<Part>)
    ensures |r| == |results| && forall i :: 0 <= i < |r| ==> r[i] == Result(results[i])
  {
    seq(|results|, i requires 0 <= i < |results| => Result(results[i]))
  }

  lemma {:induction false} ResultPartsJson(results: seq<ToolResult>)
    ensures JsonParts(ResultParts(results)) == JsonResults(results)
  {
    hide JsonResult;
    if results != [] {
      var front, last := results[..|results| - 1], results[|results| - 1];
      ResultPartsJson(front);
      assert ResultParts(results)[..|results| - 1] == ResultParts(front);
      assert results == front + [last];
      JsonResultsSnoc(front, last);
    }
  }

  /** The message of a batch's results is a user message like any other. */
  lemma ResultsMessage(checks: Checks, results: seq<ToolResult>)
    ensures JsonText(FromUser, ResultParts(results)) == JsonMessage(results)
    ensures Encodes(checks, FromUser, ResultParts(results)) <==> MessageEncodes(results)
  {
    hide ResultEncodes, JsonParts, JsonResults, Join, Ascii;
    ResultPartsJson(results);
    var parts := ResultParts(results);
    assert forall i :: 0 <= i < |parts| ==> (PartEncodes(checks, parts[i]) <==> ResultEncodes(results[i]));
  }

  /** The size of the message of a batch's results. */
  method ResultsSize(results: seq<ToolResult>) returns (r: Checked)
    ensures r == if MessageEncodes(results) && |JsonMessage(results)| <= MAX_INT64 then Exact(|JsonMessage(results)|) else Overflow
  {
    hide JsonMessage, MessageEncodes, JsonText, Encodes;
    var checks := Checks((s: Bytes) => false, (s: Bytes) => false);
    ResultsMessage(checks, results);
    r := MessageFragmentSize(checks, FromUser, ResultParts(results));
  }
}
