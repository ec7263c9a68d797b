/** The canonical bytes of a content block, which decide whether two blocks are equal
    (core/models/content.go:257-396, internal/jsonvalue/jsonvalue.go:28-52). */
module CanonicalBytes {
  import opened Utf8
  import opened Wrappers
  import opened Frame
  import opened Json
  import opened JsonRoundTrip
  import opened JsonCanon

  datatype Content =
    | TextContent(text: Bytes)
    | ImageContent(uri: Bytes, mime: Bytes, detail: Bytes, data: Bytes)
    | CallContent(id: Bytes, name: Bytes, arguments: Bytes)
    | ResultContent(callID: Bytes, name: Bytes, isError: bool, children: seq<Content>)
    | ReasoningContent(text: Bytes)
    | RefusalContent(text: Bytes)

  const MAX_UINT64: nat := 0x1_0000_0000_0000_0000

  // ---- length prefixes are unambiguous ----

  lemma {:induction false} BigEndianInjective(v: nat, w: nat, width: nat)
    requires v < Power(width) && w < Power(width) && BigEndian(v, width) == BigEndian(w, width)
    ensures v == w
  {
    if width > 0 {
      var x, y := BigEndian(v, width), BigEndian(w, width);
      assert x[..width - 1] == BigEndian(v / 256, width - 1) && y[..width - 1] == BigEndian(w / 256, width - 1);
      assert x[width - 1] == v % 256 && y[width - 1] == w % 256;
      BigEndianInjective(v / 256, w / 256, width - 1);
    }
  }

  function Power(width: nat): nat
  {
    if width == 0 then 1 else 256 * Power(width - 1)
  }

  lemma EightBytes()
    ensures Power(8) == MAX_UINT64
  {
    assert Power(4) == 0x1_0000_0000;
    assert Power(8) == 256 * 256 * 256 * 256 * Power(4);
  }

  lemma U64Injective(v: nat, w: nat)
    requires v < MAX_UINT64 && w < MAX_UINT64 && U64(v) == U64(w)
    ensures v == w
  {
    EightBytes();
    hide BigEndian, Power;
    BigEndianInjective(v, w, 8);
  }

  /** Go's lengths fit 63 bits. */
  predicate Sized(p: Bytes)
  {
    |p| < MAX_UINT64
  }

  /** A framed field can be read off the front in one way only. */
  lemma FramedSplits(p: Bytes, x: Bytes, q: Bytes, y: Bytes)
    requires Sized(p) && Sized(q) && Framed(p) + x == Framed(q) + y
    ensures p == q && x == y
  {
    hide U64;
    var s, t := Framed(p) + x, Framed(q) + y;
    assert s[..8] == U64(|p|) && t[..8] == U64(|q|);
    U64Injective(|p|, |q|);
    assert s[8..8 + |p|] == p && t[8..8 + |q|] == q;
    assert s[8 + |p|..] == x && t[8 + |q|..] == y;
  }

  lemma U64Splits(v: nat, x: Bytes, w: nat, y: Bytes)
    requires v < MAX_UINT64 && w < MAX_UINT64 && U64(v) + x == U64(w) + y
    ensures v == w && x == y
  {
    hide U64;
    assert (U64(v) + x)[..8] == U64(v) && (U64(w) + y)[..8] == U64(w);
    assert (U64(v) + x)[8..] == x && (U64(w) + y)[8..] == y;
    U64Injective(v, w);
  }

  // ---- the encoding ----

  const TEXT: Bytes := Ascii("text")
  const IMAGE: Bytes := Ascii("image")
  const CALL: Bytes := Ascii("tool_call")
  const RESULT: Bytes := Ascii("tool_result")
  const REASONING: Bytes := Ascii("reasoning_summary")
  const REFUSAL: Bytes := Ascii("refusal")

  function Kind(c: Content): Bytes
  {
    match c
    case TextContent(_) => TEXT
    case ImageContent(_, _, _, _) => IMAGE
    case CallContent(_, _, _) => CALL
    case ResultContent(_, _, _, _) => RESULT
    case ReasoningContent(_) => REASONING
    case RefusalContent(_) => REFUSAL
  }

  /** CanonicalObject: the canonical text of an argument object; nothing for other texts. */
  function CanonicalObject(b: Budget, raw: Bytes): Option<Bytes>
  {
    var v := Parse(b, raw);
    if v.None? || !v.value.Object? then None else Some(CanonicalText(v.value))
  }

  function Arguments(b: Budget, raw: Bytes): Bytes
  {
    if CanonicalObject(b, raw).Some? then CanonicalObject(b, raw).value else []
  }

  function Encode(b: Budget, c: Content): Bytes
    decreases c
  {
    Framed(Kind(c)) + Fields(b, c)
  }

  function Fields(b: Budget, c: Content): Bytes
    decreases c, 0
  {
    match c
    case TextContent(text) => Framed(text) + []
    case ReasoningContent(text) => Framed(text) + []
    case RefusalContent(text) => Framed(text) + []
    case ImageContent(uri, mime, detail, data) => Framed(uri) + (Framed(mime) + (Framed(detail) + (Framed(data) + [])))
    case CallContent(id, name, arguments) => Framed(id) + (Framed(name) + (Framed(Arguments(b, arguments)) + []))
    case ResultContent(callID, name, isError, children) =>
      Framed(callID) + (Framed(name) + (U64(if isError then 1 else 0) + (U64(|children|) + EncodeAll(b, children))))
  }

  function EncodeAll(b: Budget, cs: seq<Content>): Bytes
    decreases cs
  {
    if cs == [] then [] else Framed(Encode(b, cs[0])) + EncodeAll(b, cs[1..])
  }

  /** The bytes of a content that holds no other, written out. */
  lemma BytesWrittenOut(b: Budget, c: Content)
    ensures match c
      case TextContent(text) => Encode(b, c) == Framed(Ascii("text")) + Framed(text)
      case ReasoningContent(text) => Encode(b, c) == Framed(Ascii("reasoning_summary")) + Framed(text)
      case RefusalContent(text) => Encode(b, c) == Framed(Ascii("refusal")) + Framed(text)
      case ImageContent(uri, mime, detail, data) =>
        Encode(b, c) == Framed(Ascii("image")) + Framed(uri) + Framed(mime) + Framed(detail) + Framed(data)
      case CallContent(id, name, arguments) =>
        CanonicalObject(b, arguments).Some? ==>
          Encode(b, c) == Framed(Ascii("tool_call")) + Framed(id) + Framed(name) + Framed(CanonicalObject(b, arguments).value)
      case ResultContent(callID, name, isError, children) =>
        Encode(b, c) == Framed(Ascii("tool_result")) + Framed(callID) + Framed(name) + U64(if isError then 1 else 0) + U64(|children|) + EncodeAll(b, children)
  {
    hide Framed, U64, CanonicalObject, Ascii;
  }

  /** Validation, as far as it bears on the encoding, and lengths a machine can hold. */
  ghost predicate Acceptable(b: Budget, c: Content)
    decreases c
  {
    Sized(Encode(b, c)) && match c
      case TextContent(text) => Sized(text)
      case ReasoningContent(text) => Sized(text)
      case RefusalContent(text) => Sized(text)
      case ImageContent(uri, mime, detail, data) => Sized(uri) && Sized(mime) && Sized(detail) && Sized(data)
      case CallContent(id, name, arguments) => Sized(id) && Sized(name) && CanonicalObject(b, arguments).Some? && Sized(Arguments(b, arguments))
      case ResultContent(callID, name, _, children) => Sized(callID) && Sized(name) && |children| < MAX_UINT64 && AcceptableAll(b, children)
  }

  ghost predicate AcceptableAll(b: Budget, cs: seq<Content>)
    decreases cs
  {
    cs == [] || (Acceptable(b, cs[0]) && AcceptableAll(b, cs[1..]))
  }

  // ---- equality ----

  /** jsonvalue.Equal, whose parse allows more nodes than the one that validates. */
  predicate EqualJSON(wide: Budget, left: Bytes, right: Bytes)
  {
    left == right || (Parse(wide, left).Some? && Parse(wide, right).Some?
                      && CanonicalText(Parse(wide, left).value) == CanonicalText(Parse(wide, right).value))
  }

  predicate Equal(wide: Budget, c: Content, d: Content)
    decreases c
  {
    match c
    case TextContent(text) => d.TextContent? && d.text == text
    case ReasoningContent(text) => d.ReasoningContent? && d.text == text
    case RefusalContent(text) => d.RefusalContent? && d.text == text
    case ImageContent(uri, mime, detail, data) => d.ImageContent? && d.uri == uri && d.mime == mime && d.detail == detail && d.data == data
    case CallContent(id, name, arguments) => d.CallContent? && d.id == id && d.name == name && EqualJSON(wide, arguments, d.arguments)
    case ResultContent(callID, name, isError, children) =>
      d.ResultContent? && d.callID == callID && d.name == name && d.isError == isError && EqualAll(wide, children, d.children)
  }

  predicate EqualAll(wide: Budget, cs: seq<Content>, ds: seq<Content>)
    decreases cs
  {
    if cs == [] then ds == []
    else ds != [] && Equal(wide, cs[0], ds[0]) && EqualAll(wide, cs[1..], ds[1..])
  }

  lemma ArgumentsDecide(b: Budget, wide: Budget, left: Bytes, right: Bytes)
    requires Wider(b, wide) && CanonicalObject(b, left).Some? && CanonicalObject(b, right).Some?
    ensures Arguments(b, left) == Arguments(b, right) <==> EqualJSON(wide, left, right)
  {
    hide Parse, CanonicalText;
    WiderParse(b, wide, left);
    WiderParse(b, wide, right);
  }

  lemma KindsDiffer()
    ensures TEXT != IMAGE && TEXT != CALL && TEXT != RESULT && TEXT != REASONING && TEXT != REFUSAL
    ensures IMAGE != CALL && IMAGE != RESULT && IMAGE != REASONING && IMAGE != REFUSAL
    ensures CALL != RESULT && CALL != REASONING && CALL != REFUSAL
    ensures RESULT != REASONING && RESULT != REFUSAL && REASONING != REFUSAL
    ensures Sized(TEXT) && Sized(IMAGE) && Sized(CALL) && Sized(RESULT) && Sized(REASONING) && Sized(REFUSAL)
  {
    hide Ascii;
    assert |TEXT| == 4 && |IMAGE| == 5 && |CALL| == 9 && |RESULT| == 11 && |REASONING| == 17 && |REFUSAL| == 7;
  }

  lemma SameKind(c: Content, d: Content)
    requires Kind(c) == Kind(d)
    ensures c.TextContent? <==> d.TextContent?
    ensures c.ImageContent? <==> d.ImageContent?
    ensures c.CallContent? <==> d.CallContent?
    ensures c.ResultContent? <==> d.ResultContent?
    ensures c.ReasoningContent? <==> d.ReasoningContent?
    ensures Sized(Kind(c)) && Sized(Kind(d))
  {
    KindsDiffer();
    hide Ascii;
  }

  lemma KindSized(c: Content)
    ensures Sized(Kind(c))
  {
    KindsDiffer();
    hide Ascii;
  }

  /** For valid blocks the canonical bytes are equal exactly when the blocks are. */
  lemma {:induction false} BytesDecide(b: Budget, wide: Budget, c: Content, d: Content)
    requires Wider(b, wide) && Acceptable(b, c) && Acceptable(b, d)
    ensures Encode(b, c) == Encode(b, d) <==> Equal(wide, c, d)
    decreases c, 1
  {
    hide Framed, Kind, Fields;
    KindSized(c);
    KindSized(d);
    if Encode(b, c) == Encode(b, d) {
      FramedSplits(Kind(c), Fields(b, c), Kind(d), Fields(b, d));
      SameKind(c, d);
      FieldsDecide(b, wide, c, d);
    }
    if Equal(wide, c, d) {
      EqualKinds(wide, c, d);
      SameKind(c, d);
      FieldsDecide(b, wide, c, d);
    }
  }

  lemma EqualKinds(wide: Budget, c: Content, d: Content)
    requires Equal(wide, c, d)
    ensures Kind(c) == Kind(d)
  {
    hide EqualAll, EqualJSON, Ascii;
  }

  lemma {:induction false} FieldsDecide(b: Budget, wide: Budget, c: Content, d: Content)
    requires Wider(b, wide) && Acceptable(b, c) && Acceptable(b, d) && Kind(c) == Kind(d)
    ensures Fields(b, c) == Fields(b, d) <==> Equal(wide, c, d)
    decreases c, 0
  {
    SameKind(c, d);
    hide Framed, U64, Kind, Encode, Wider;
    match c
    case TextContent(_) => if Fields(b, c) == Fields(b, d) { FramedSplits(c.text, [], d.text, []); }
    case ReasoningContent(_) => if Fields(b, c) == Fields(b, d) { FramedSplits(c.text, [], d.text, []); }
    case RefusalContent(_) => if Fields(b, c) == Fields(b, d) { FramedSplits(c.text, [], d.text, []); }
    case ImageContent(_, _, _, _) => ImageDecides(b, wide, c, d);
    case CallContent(_, _, _) => CallDecides(b, wide, c, d);
    case ResultContent(_, _, _, children) =>
      ChildrenDecide(b, wide, c.children, d.children);
      ResultDecides(b, wide, c, d);
  }

  lemma ImageDecides(b: Budget, wide: Budget, c: Content, d: Content)
    requires Acceptable(b, c) && Acceptable(b, d) && c.ImageContent? && d.ImageContent?
    ensures Fields(b, c) == Fields(b, d) <==> Equal(wide, c, d)
  {
    hide Framed, Encode;
    if Fields(b, c) == Fields(b, d) {
      FramedSplits(c.uri, Framed(c.mime) + (Framed(c.detail) + (Framed(c.data) + [])), d.uri, Framed(d.mime) + (Framed(d.detail) + (Framed(d.data) + [])));
      FramedSplits(c.mime, Framed(c.detail) + (Framed(c.data) + []), d.mime, Framed(d.detail) + (Framed(d.data) + []));
      FramedSplits(c.detail, Framed(c.data) + [], d.detail, Framed(d.data) + []);
      FramedSplits(c.data, [], d.data, []);
    }
  }

  lemma CallDecides(b: Budget, wide: Budget, c: Content, d: Content)
    requires Wider(b, wide) && Acceptable(b, c) && Acceptable(b, d) && c.CallContent? && d.CallContent?
    ensures Fields(b, c) == Fields(b, d) <==> Equal(wide, c, d)
  {
    hide Framed, Encode, Arguments, CanonicalObject, EqualJSON, Wider;
    var x, y := Arguments(b, c.arguments), Arguments(b, d.arguments);
    ArgumentsDecide(b, wide, c.arguments, d.arguments);
    if Fields(b, c) == Fields(b, d) {
      FramedSplits(c.id, Framed(c.name) + (Framed(x) + []), d.id, Framed(d.name) + (Framed(y) + []));
      FramedSplits(c.name, Framed(x) + [], d.name, Framed(y) + []);
      FramedSplits(x, [], y, []);
    }
  }

  lemma ResultDecides(b: Budget, wide: Budget, c: Content, d: Content)
    requires Acceptable(b, c) && Acceptable(b, d) && c.ResultContent? && d.ResultContent?
    requires (|c.children| == |d.children| && EncodeAll(b, c.children) == EncodeAll(b, d.children)) <==> EqualAll(wide, c.children, d.children)
    ensures Fields(b, c) == Fields(b, d) <==> Equal(wide, c, d)
  {
    hide Framed, U64, Encode, EncodeAll, EqualAll, AcceptableAll;
    var x, y := EncodeAll(b, c.children), EncodeAll(b, d.children);
    var e, f := if c.isError then 1 else 0, if d.isError then 1 else 0;
    if Fields(b, c) == Fields(b, d) {
      FramedSplits(c.callID, Framed(c.name) + (U64(e) + (U64(|c.children|) + x)), d.callID, Framed(d.name) + (U64(f) + (U64(|d.children|) + y)));
      FramedSplits(c.name, U64(e) + (U64(|c.children|) + x), d.name, U64(f) + (U64(|d.children|) + y));
      U64Splits(e, U64(|c.children|) + x, f, U64(|d.children|) + y);
      U64Splits(|c.children|, x, |d.children|, y);
    }
  }

  lemma {:induction false} ChildrenDecide(b: Budget, wide: Budget, cs: seq<Content>, ds: seq<Content>)
    requires Wider(b, wide) && AcceptableAll(b, cs) && AcceptableAll(b, ds)
    ensures (|cs| == |ds| && EncodeAll(b, cs) == EncodeAll(b, ds)) <==> EqualAll(wide, cs, ds)
    decreases cs, 0
  {
    hide Framed, Encode, Equal, Acceptable, Wider;
    if cs != [] && ds != [] {
      BytesDecide(b, wide, cs[0], ds[0]);
      ChildrenDecide(b, wide, cs[1..], ds[1..]);
      AreSized(b, cs[0]);
      AreSized(b, ds[0]);
      if EncodeAll(b, cs) == EncodeAll(b, ds) {
        FramedSplits(Encode(b, cs[0]), EncodeAll(b, cs[1..]), Encode(b, ds[0]), EncodeAll(b, ds[1..]));
      }
    }
  }

  lemma AreSized(b: Budget, c: Content)
    requires Acceptable(b, c)
    ensures Sized(Encode(b, c))
  {
  }
}
