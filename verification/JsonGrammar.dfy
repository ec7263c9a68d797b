/** The parser accepts exactly the texts of the JSON grammar, sections 2 to 7 of RFC 8259, within
    its budgets, and reads them as the value they spell (internal/jsonvalue/parse.go:72-484). */
module JsonGrammar {
  import opened Utf8
  import opened Wrappers
  import opened Wire
  import opened Json
  import opened JsonRoundTrip
  import opened JsonNumbers

  // ---- the grammar ----

  /** A part of a string: a character as it is, or one of the three kinds of escape. */
  datatype Piece = Raw(rune: Bytes) | Short(letter: byte) | Unit(digits: Bytes) | Pair(high: Bytes, low: Bytes)

  /** What the letter after a reverse solidus stands for. */
  const LETTERS: map<byte, byte> := map[34 := 34, 92 := 92, 47 := 47, 98 := 8, 102 := 12, 110 := 10, 114 := 13, 116 := 9]

  predicate SoundPiece(p: Piece)
  {
    match p
    case Raw(r) => 0 < |r| == RuneLen(r) && r[0] >= 0x20 && r[0] != QUOTE && r[0] != BACKSLASH
    case Short(letter) => letter in LETTERS
    case Unit(d) => |d| == 4 && HexQuad(d).Some? && !(0xD800 <= HexQuad(d).value < 0xE000)
    case Pair(d, e) =>
      && |d| == |e| == 4 && HexQuad(d).Some? && HexQuad(e).Some?
      && 0xD800 <= HexQuad(d).value < 0xDC00 && 0xDC00 <= HexQuad(e).value < 0xE000
  }

  function PieceText(p: Piece): Bytes
  {
    match p
    case Raw(r) => r
    case Short(letter) => [BACKSLASH, letter]
    case Unit(d) => [BACKSLASH, 117] + d
    case Pair(d, e) => [BACKSLASH, 117] + d + ([BACKSLASH, 117] + e)
  }

  function PieceValue(p: Piece): Bytes
    requires SoundPiece(p)
  {
    match p
    case Raw(r) => r
    case Short(letter) => [LETTERS[letter]]
    case Unit(d) => EncodeRune(HexQuad(d).value)
    case Pair(d, e) => EncodePair(HexQuad(d).value, HexQuad(e).value)
  }

  predicate SoundPieces(ps: seq<Piece>)
  {
    forall i :: 0 <= i < |ps| ==> SoundPiece(ps[i])
  }

  /** The pieces as they are written, and what follows them. */
  function SpellPieces(ps: seq<Piece>, tail: Bytes): Bytes
  {
    if ps == [] then tail else PieceText(ps[0]) + SpellPieces(ps[1..], tail)
  }

  function PiecesValue(ps: seq<Piece>): Bytes
    requires SoundPieces(ps)
  {
    if ps == [] then [] else PieceValue(ps[0]) + PiecesValue(ps[1..])
  }

  /** A value with the spaces inside it. */
  datatype Tree =
    | Word(value: Value)
    | Text(pieces: seq<Piece>)
    | List(space: Bytes, slots: seq<Slot>)
    | Dict(space: Bytes, entries: seq<Entry>)

  datatype Slot = Slot(before: Bytes, tree: Tree, after: Bytes)

  datatype Entry = Entry(before: Bytes, key: seq<Piece>, colon: Bytes, space: Bytes, tree: Tree, after: Bytes)

  predicate AllSpace(w: Bytes)
  {
    forall i :: 0 <= i < |w| ==> w[i] in SPACES
  }

  /** A word is one of the three literals or a number; the space of a list or an object is there
      when it holds nothing. */
  ghost predicate SoundTree(t: Tree)
    decreases t
  {
    match t
    case Word(v) => v.Null? || v.Bool? || (v.Number? && IsNumber(v.lexeme))
    case Text(pieces) => SoundPieces(pieces)
    case List(space, slots) => AllSpace(space) && (slots != [] ==> space == []) && SoundSlots(slots)
    case Dict(space, entries) => AllSpace(space) && (entries != [] ==> space == []) && SoundEntries(entries)
  }

  ghost predicate SoundSlots(slots: seq<Slot>)
    decreases slots
  {
    slots == [] || (
      var x := slots[0];
      AllSpace(x.before) && SoundTree(x.tree) && AllSpace(x.after) && SoundSlots(slots[1..]))
  }

  ghost predicate SoundEntries(entries: seq<Entry>)
    decreases entries
  {
    entries == [] || (
      var e := entries[0];
      && AllSpace(e.before) && SoundPieces(e.key) && AllSpace(e.colon) && AllSpace(e.space) && SoundTree(e.tree) && AllSpace(e.after)
      && SoundEntries(entries[1..]))
  }

  /** A value as it is written, and what follows it. */
  function Spell(t: Tree, tail: Bytes): Bytes
    decreases t
  {
    match t
    case Word(v) => Print(v) + tail
    case Text(pieces) => [QUOTE] + SpellPieces(pieces, [QUOTE] + tail)
    case List(space, slots) => [OPEN_ARRAY] + (space + SpellSlots(slots, [CLOSE_ARRAY] + tail))
    case Dict(space, entries) => [OPEN_OBJECT] + (space + SpellEntries(entries, [CLOSE_OBJECT] + tail))
  }

  function SpellSlots(slots: seq<Slot>, tail: Bytes): Bytes
    decreases slots
  {
    if slots == [] then tail
    else slots[0].before + Spell(slots[0].tree, slots[0].after + if |slots| == 1 then tail else [COMMA] + SpellSlots(slots[1..], tail))
  }

  function SpellEntries(entries: seq<Entry>, tail: Bytes): Bytes
    decreases entries
  {
    if entries == [] then tail
    else
      var e := entries[0];
      var more := if |entries| == 1 then tail else [COMMA] + SpellEntries(entries[1..], tail);
      e.before + ([QUOTE] + SpellPieces(e.key, [QUOTE] + (e.colon + ([COLON] + (e.space + Spell(e.tree, e.after + more))))))
  }

  ghost function ValueOf(t: Tree): Value
    requires SoundTree(t)
    decreases t
  {
    match t
    case Word(v) => v
    case Text(pieces) => Str(PiecesValue(pieces))
    case List(_, slots) => Array(SlotValues(slots))
    case Dict(_, entries) => Object(EntryValues(entries))
  }

  ghost function SlotValues(slots: seq<Slot>): (r: seq<Value>)
    requires SoundSlots(slots)
    ensures |r| == |slots|
    decreases slots
  {
    if slots == [] then [] else [ValueOf(slots[0].tree)] + SlotValues(slots[1..])
  }

  ghost function EntryValues(entries: seq<Entry>): (r: seq<Member>)
    requires SoundEntries(entries)
    ensures |r| == |entries|
    decreases entries
  {
    if entries == [] then [] else [Member(PiecesValue(entries[0].key), ValueOf(entries[0].tree))] + EntryValues(entries[1..])
  }

  // ---- spaces ----

  lemma SpacesAre(b: byte)
    ensures b in SPACES <==> Space(b)
  {
    assert SPACES == [32, 9, 10, 13];
  }

  lemma Skips(w: Bytes, s: Bytes)
    requires AllSpace(w) && (s == [] || !Space(s[0]))
    ensures SkipSpace(w + s) == s
  {
    if s != [] { SpacesAre(s[0]); }
    SkipsExactly(w, s);
  }

  lemma {:induction false} SkipSplits(s: Bytes) returns (w: Bytes)
    ensures AllSpace(w) && s == w + SkipSpace(s)
  {
    hide SPACES;
    if s != [] && Space(s[0]) {
      SpacesAre(s[0]);
      w := SkipSplits(s[1..]);
      w := [s[0]] + w;
    } else {
      w := [];
    }
  }

  // ---- strings: what is spelled is read ----

  lemma QuadAppend(d: Bytes, tail: Bytes)
    requires |d| == 4
    ensures HexQuad(d + tail) == HexQuad(d)
  {
    hide E.HexValue;
  }

  lemma LetterReads(letter: byte)
    ensures ShortEscape(letter) == if letter in LETTERS then Some(LETTERS[letter]) else None
    ensures letter in LETTERS ==> letter != 117
  {
  }

  lemma PieceReads(p: Piece, tail: Bytes)
    requires SoundPiece(p)
    ensures StringBody(PieceText(p) + tail) == Before(PieceValue(p), StringBody(tail))
  {
    hide StringBody, HexQuad, EncodeRune, EncodePair, LETTERS;
    match p
    case Raw(r) =>
      if r[0] < 0x80 {
        assert r == [r[0]];
        ReadPlain(r[0], tail);
      } else {
        RuneOfPrefix(r, tail);
        ReadMultibyte(r, tail);
      }
    case Short(letter) =>
      LetterReads(letter);
      EscapeReads([letter], tail, [LETTERS[letter]]);
      assert [BACKSLASH] + [letter] == [BACKSLASH, letter];
    case Unit(d) =>
      QuadAppend(d, tail);
      UnitMeans(d, tail);
      EscapeReads([117] + d, tail, EncodeRune(HexQuad(d).value));
      assert [BACKSLASH] + ([117] + d) == [BACKSLASH, 117] + d;
    case Pair(d, e) =>
      PairMeans(d, e, tail);
      EscapeReads([117] + d + ([BACKSLASH, 117] + e), tail, EncodePair(HexQuad(d).value, HexQuad(e).value));
      assert [BACKSLASH] + ([117] + d + ([BACKSLASH, 117] + e)) == [BACKSLASH, 117] + d + ([BACKSLASH, 117] + e);
  }

  lemma EscapeReads(text: Bytes, tail: Bytes, value: Bytes)
    requires Json.Escape(text + tail) == Some((value, |text|))
    ensures StringBody([BACKSLASH] + text + tail) == Before(value, StringBody(tail))
  {
    hide StringBody, Json.Escape;
    var s := [BACKSLASH] + text + tail;
    assert s[1..] == text + tail && s[1 + |text|..] == tail;
    ReadBackslash(s);
  }

  lemma UnitMeans(d: Bytes, tail: Bytes)
    requires SoundPiece(Unit(d))
    ensures Json.Escape([117] + d + tail) == Some((EncodeRune(HexQuad(d).value), 5))
  {
    hide HexQuad, EncodeRune;
    var s := [117] + d + tail;
    assert s[1..] == d + tail;
    QuadAppend(d, tail);
  }

  lemma PairMeans(d: Bytes, e: Bytes, tail: Bytes)
    requires SoundPiece(Pair(d, e))
    ensures Json.Escape([117] + d + ([BACKSLASH, 117] + e) + tail) == Some((EncodePair(HexQuad(d).value, HexQuad(e).value), 11))
  {
    hide HexQuad, EncodePair;
    var s := [117] + d + ([BACKSLASH, 117] + e) + tail;
    assert s[1..] == d + ([BACKSLASH, 117] + e + tail) && s[7..] == e + tail;
    assert s[5] == BACKSLASH && s[6] == 117;
    QuadAppend(d, [BACKSLASH, 117] + e + tail);
    QuadAppend(e, tail);
  }

  lemma {:induction false} PiecesRead(ps: seq<Piece>, rest: Bytes)
    requires SoundPieces(ps)
    ensures StringBody(SpellPieces(ps, [QUOTE] + rest)) == Some((PiecesValue(ps), rest))
  {
    if ps == [] {
      assert ([QUOTE] + rest)[1..] == rest;
    } else {
      hide StringBody, SoundPiece, PieceText, PieceValue;
      PiecesRead(ps[1..], rest);
      PieceReads(ps[0], SpellPieces(ps[1..], [QUOTE] + rest));
    }
  }

  // ---- strings: what is read is spelled ----

  /** The first piece of a text that is read as a string. */
  lemma FirstPiece(s: Bytes) returns (p: Piece, more: Bytes)
    requires StringBody(s).Some? && s[0] != QUOTE
    ensures SoundPiece(p) && s == PieceText(p) + more && |more| < |s| && StringBody(s) == Before(PieceValue(p), StringBody(more))
  {
    if s[0] == BACKSLASH {
      p, more := EscapePiece(s);
    } else {
      var n := RuneLen(s);
      PlainRune(s);
      p, more := Raw(s[..n]), s[n..];
      RuneAgain(s, n);
      hide StringBody;
      assert s == s[..n] + s[n..];
      PieceReads(p, more);
    }
  }

  lemma PlainRune(s: Bytes)
    requires StringBody(s).Some? && s[0] != QUOTE && s[0] != BACKSLASH
    ensures RuneLen(s) > 0 && s[0] >= 0x20
  {
    hide Before;
  }

  lemma EscapePiece(s: Bytes) returns (p: Piece, more: Bytes)
    requires StringBody(s).Some? && s != [] && s[0] == BACKSLASH
    ensures SoundPiece(p) && s == PieceText(p) + more && |more| < |s| && StringBody(s) == Before(PieceValue(p), StringBody(more))
  {
    hide *;
    EscapeThere(s);
    if s[1] != 117 {
      p, more := ShortPiece(s);
    } else {
      p, more := UnitPiece(s);
    }
    ShorterAfter(p, more, s);
    PieceReads(p, more);
  }

  lemma ShorterAfter(p: Piece, more: Bytes, s: Bytes)
    requires SoundPiece(p) && s == PieceText(p) + more
    ensures |more| < |s|
  {
    hide RuneLen, HexQuad;
  }

  lemma ShortPiece(s: Bytes) returns (p: Piece, more: Bytes)
    requires |s| >= 2 && s[0] == BACKSLASH && s[1] != 117 && Json.Escape(s[1..]).Some?
    ensures SoundPiece(p) && s == PieceText(p) + more
  {
    hide HexQuad, LETTERS;
    LetterReads(s[1]);
    p, more := Short(s[1]), s[2..];
    assert s == [BACKSLASH, s[1]] + s[2..];
  }

  lemma UnitPiece(s: Bytes) returns (p: Piece, more: Bytes)
    requires |s| >= 2 && s[0] == BACKSLASH && s[1] == 117 && Json.Escape(s[1..]).Some? && HexQuad(s[2..]).Some?
    ensures SoundPiece(p) && s == PieceText(p) + more
  {
    hide HexQuad;
    var d := s[2..6];
    assert s[1..][1..] == s[2..] == d + s[6..];
    QuadAppend(d, s[6..]);
    if 0xD800 <= HexQuad(d).value < 0xDC00 {
      assert |s| >= 12;
      var e := s[8..12];
      assert s[1..][7..] == s[8..] == e + s[12..];
      QuadAppend(e, s[12..]);
      p, more := Pair(d, e), s[12..];
      PairSplit(s, d, e);
    } else {
      p, more := Unit(d), s[6..];
      assert s == [BACKSLASH, 117] + d + s[6..];
    }
  }

  lemma PairSplit(s: Bytes, d: Bytes, e: Bytes)
    requires |s| >= 12 && d == s[2..6] && e == s[8..12] && s[0] == s[6] == BACKSLASH && s[1] == s[7] == 117
    ensures s == [BACKSLASH, 117] + d + ([BACKSLASH, 117] + e) + s[12..]
  {
  }

  lemma EscapeThere(s: Bytes)
    requires StringBody(s).Some? && s != [] && s[0] == BACKSLASH
    ensures Json.Escape(s[1..]).Some? && |s| >= 2
    ensures s[1] == 117 ==> HexQuad(s[2..]).Some?
  {
    hide HexQuad, Before;
  }

  lemma {:induction false} PiecesOf(s: Bytes) returns (ps: seq<Piece>)
    requires StringBody(s).Some?
    ensures SoundPieces(ps) && s == SpellPieces(ps, [QUOTE] + StringBody(s).value.1) && PiecesValue(ps) == StringBody(s).value.0
    decreases |s|
  {
    if s[0] == QUOTE {
      ps := [];
      assert s == [QUOTE] + s[1..];
    } else {
      hide StringBody, SoundPiece, PieceText, PieceValue;
      var p, more := FirstPiece(s);
      var rest := PiecesOf(more);
      ps := [p] + rest;
      assert ps[1..] == rest;
    }
  }

  // ---- values: what is spelled is read ----

  /** Nothing that a value can be confused with or go on into. */
  predicate Closes(rest: Bytes)
  {
    rest == [] || Space(rest[0]) || rest[0] == COMMA || rest[0] == CLOSE_ARRAY || rest[0] == CLOSE_OBJECT
  }

  lemma SpaceCloses(w: Bytes, rest: Bytes)
    requires AllSpace(w) && Closes(rest)
    ensures Closes(w + rest)
  {
    hide SPACES;
    if w != [] { SpacesAre(w[0]); }
  }

  /** The text starts a value. */
  predicate Opens(s: Bytes)
  {
    s != [] && !Space(s[0]) && s[0] != CLOSE_ARRAY && s[0] != CLOSE_OBJECT
  }

  lemma WordReads(b: Budget, v: Value, rest: Bytes, depth: nat, nodes: nat)
    requires SoundTree(Word(v)) && WellFormed(b, v) && Closes(rest) && nodes < b.maxNodes
    ensures ParseValue(b, Print(v) + rest, depth, nodes) == Ok(v, rest, nodes + 1) && Opens(Print(v) + rest)
  {
    hide NumberLen, IsNumber;
    var s := Print(v) + rest;
    match v
    case Null => assert s[..4] == NULL && s[4..] == rest;
    case Bool(x) =>
      if x { assert s[..4] == TRUE && s[4..] == rest; } else { assert s[..5] == FALSE && s[5..] == rest; }
    case Number(l) =>
      NumberStarts(l);
      NumberAppend(l, rest);
      assert s[..|l|] == l && s[|l|..] == rest;
  }

  lemma TextReads(b: Budget, pieces: seq<Piece>, rest: Bytes, depth: nat, nodes: nat)
    requires SoundPieces(pieces) && nodes < b.maxNodes
    ensures ParseValue(b, Spell(Text(pieces), rest), depth, nodes) == Ok(Str(PiecesValue(pieces)), rest, nodes + 1) && Opens(Spell(Text(pieces), rest))
  {
    hide StringBody, SpellPieces, PiecesValue;
    PiecesRead(pieces, rest);
    var s := Spell(Text(pieces), rest);
    assert s[1..] == SpellPieces(pieces, [QUOTE] + rest);
  }

  lemma {:induction false} TreeReads(b: Budget, t: Tree, rest: Bytes, depth: nat, nodes: nat)
    requires SoundTree(t) && WellFormed(b, ValueOf(t)) && Closes(rest)
    requires depth + Depth(ValueOf(t)) <= b.maxDepth && nodes + Nodes(ValueOf(t)) <= b.maxNodes
    ensures ParseValue(b, Spell(t, rest), depth, nodes) == Ok(ValueOf(t), rest, nodes + Nodes(ValueOf(t))) && Opens(Spell(t, rest))
    decreases t, 1
  {
    hide *;
    match t
    case Word(v) =>
      LeafReads(b, t, rest, depth, nodes);
    case Text(pieces) =>
      LeafReads(b, t, rest, depth, nodes);
    case List(space, slots) =>
      ListFacts(b, space, slots);
      if slots != [] {
        SlotsRead(b, slots, rest, depth + 1, nodes + 1);
      }
      ListReads(b, space, slots, rest, depth, nodes);
    case Dict(space, entries) =>
      DictFacts(b, space, entries);
      if entries != [] {
        EntriesRead(b, entries, rest, depth + 1, nodes + 1, {});
      }
      DictReads(b, space, entries, rest, depth, nodes);
  }

  lemma LeafReads(b: Budget, t: Tree, rest: Bytes, depth: nat, nodes: nat)
    requires SoundTree(t) && WellFormed(b, ValueOf(t)) && Closes(rest) && nodes + Nodes(ValueOf(t)) <= b.maxNodes && (t.Word? || t.Text?)
    ensures ParseValue(b, Spell(t, rest), depth, nodes) == Ok(ValueOf(t), rest, nodes + Nodes(ValueOf(t))) && Opens(Spell(t, rest))
  {
    hide ParseValue, SpellPieces, PiecesValue, Opens, WellFormed, Closes, IsNumber, SoundPieces;
    match t
    case Word(v) => WordReads(b, v, rest, depth, nodes);
    case Text(pieces) => TextReads(b, pieces, rest, depth, nodes);
  }

  lemma ListFacts(b: Budget, space: Bytes, slots: seq<Slot>)
    requires SoundTree(List(space, slots)) && WellFormed(b, ValueOf(List(space, slots)))
    ensures SoundSlots(slots) && WellFormedItems(b, SlotValues(slots)) && ValueOf(List(space, slots)) == Array(SlotValues(slots))
    ensures var v := ValueOf(List(space, slots)); Depth(v) == 1 + DepthItems(SlotValues(slots)) && Nodes(v) == 1 + NodesItems(SlotValues(slots))
  {
  }

  lemma DictFacts(b: Budget, space: Bytes, entries: seq<Entry>)
    requires SoundTree(Dict(space, entries)) && WellFormed(b, ValueOf(Dict(space, entries)))
    ensures SoundEntries(entries) && WellFormedMembers(b, EntryValues(entries), {}) && ValueOf(Dict(space, entries)) == Object(EntryValues(entries))
    ensures var v := ValueOf(Dict(space, entries)); Depth(v) == 1 + DepthMembers(EntryValues(entries)) && Nodes(v) == 1 + NodesMembers(EntryValues(entries))
  {
  }

  lemma ListReads(b: Budget, space: Bytes, slots: seq<Slot>, rest: Bytes, depth: nat, nodes: nat)
    requires SoundTree(List(space, slots)) && SoundSlots(slots) && nodes < b.maxNodes && depth < b.maxDepth
    requires slots != [] ==>
      var s := SpellSlots(slots, [CLOSE_ARRAY] + rest);
      ParseItems(b, s, depth + 1, nodes + 1) == Ok(SlotValues(slots), rest, nodes + 1 + NodesItems(SlotValues(slots))) && Opens(SkipSpace(s))
    ensures var v := Array(SlotValues(slots));
      ParseValue(b, Spell(List(space, slots), rest), depth, nodes) == Ok(v, rest, nodes + Nodes(v)) && Opens(Spell(List(space, slots), rest))
  {
    hide ParseItems, SoundSlots, AllSpace;
    var s := Spell(List(space, slots), rest);
    var inner := SpellSlots(slots, [CLOSE_ARRAY] + rest);
    assert s[1..] == space + inner;
    if slots == [] {
      Skips(space, inner);
      assert inner[1..] == rest;
    } else {
      hide SpellSlots;
      assert space + inner == inner;
      SkippedItems(b, inner, depth + 1, nodes + 1);
    }
  }

  lemma SkippedItems(b: Budget, s: Bytes, depth: nat, nodes: nat)
    ensures ParseItems(b, SkipSpace(s), depth, nodes) == ParseItems(b, s, depth, nodes)
  {
    hide ParseValue;
    NoSkip(SkipSpace(s));
  }

  lemma SkippedMembers(b: Budget, s: Bytes, depth: nat, nodes: nat, seen: set<Bytes>)
    ensures ParseMembers(b, SkipSpace(s), depth, nodes, seen) == ParseMembers(b, s, depth, nodes, seen)
  {
    hide ParseValue, ParseKey;
    NoSkip(SkipSpace(s));
  }

  lemma DictReads(b: Budget, space: Bytes, entries: seq<Entry>, rest: Bytes, depth: nat, nodes: nat)
    requires SoundTree(Dict(space, entries)) && SoundEntries(entries) && nodes < b.maxNodes && depth < b.maxDepth
    requires entries != [] ==>
      var s := SpellEntries(entries, [CLOSE_OBJECT] + rest);
      ParseMembers(b, s, depth + 1, nodes + 1, {}) == Ok(EntryValues(entries), rest, nodes + 1 + NodesMembers(EntryValues(entries))) && Opens(SkipSpace(s))
    ensures var v := Object(EntryValues(entries));
      ParseValue(b, Spell(Dict(space, entries), rest), depth, nodes) == Ok(v, rest, nodes + Nodes(v)) && Opens(Spell(Dict(space, entries), rest))
  {
    hide ParseMembers, SoundEntries, AllSpace;
    var s := Spell(Dict(space, entries), rest);
    var inner := SpellEntries(entries, [CLOSE_OBJECT] + rest);
    assert s[1..] == space + inner;
    if entries == [] {
      Skips(space, inner);
      assert inner[1..] == rest;
    } else {
      hide SpellEntries;
      assert space + inner == inner;
      SkippedMembers(b, inner, depth + 1, nodes + 1, {});
    }
  }

  lemma SlotFacts(b: Budget, slots: seq<Slot>, tail: Bytes)
    requires slots != [] && SoundSlots(slots) && WellFormedItems(b, SlotValues(slots))
    ensures var x, values := slots[0], SlotValues(slots);
      && AllSpace(x.before) && SoundTree(x.tree) && AllSpace(x.after) && SoundSlots(slots[1..])
      && values == [ValueOf(x.tree)] + SlotValues(slots[1..]) && values[0] == ValueOf(x.tree) && values[1..] == SlotValues(slots[1..])
      && SpellSlots(slots, tail) == x.before + Spell(x.tree, x.after + if |slots| == 1 then tail else [COMMA] + SpellSlots(slots[1..], tail))
  {
    hide SoundTree, Spell, AllSpace;
  }

  /** One turn of the element loop. */
  lemma OneItem(b: Budget, before: Bytes, s: Bytes, v: Value, after: Bytes, more: Bytes, depth: nat, nodes: nat, next: nat)
    requires AllSpace(before) && Opens(s) && ParseValue(b, s, depth, nodes) == Ok(v, after + more, next)
    requires AllSpace(after) && more != [] && !Space(more[0])
    ensures more[0] == CLOSE_ARRAY ==> ParseItems(b, before + s, depth, nodes) == Ok([v], more[1..], next)
    ensures var r := ParseItems(b, more[1..], depth, next);
      more[0] == COMMA && r.Ok? ==> ParseItems(b, before + s, depth, nodes) == Ok([v] + r.value, r.rest, r.nodes)
    ensures SkipSpace(before + s) == s
  {
    Skips(before, s);
    Skips(after, more);
    hide ParseValue, AllSpace, SkipSpace;
  }

  lemma {:induction false} SlotsRead(b: Budget, slots: seq<Slot>, rest: Bytes, depth: nat, nodes: nat)
    requires slots != [] && SoundSlots(slots) && WellFormedItems(b, SlotValues(slots))
    requires depth + DepthItems(SlotValues(slots)) <= b.maxDepth && nodes + NodesItems(SlotValues(slots)) <= b.maxNodes
    ensures var s := SpellSlots(slots, [CLOSE_ARRAY] + rest);
      ParseItems(b, s, depth, nodes) == Ok(SlotValues(slots), rest, nodes + NodesItems(SlotValues(slots))) && Opens(SkipSpace(s))
    decreases slots, 0
  {
    hide *;
    var x, tail := slots[0], [CLOSE_ARRAY] + rest;
    SlotFacts(b, slots, tail);
    ItemsFacts(b, SlotValues(slots));
    var more := if |slots| == 1 then tail else [COMMA] + SpellSlots(slots[1..], tail);
    var v := ValueOf(x.tree);
    IsDelimited(more);
    MoreCloses(x.after, more);
    TreeReads(b, x.tree, x.after + more, depth, nodes);
    OneItem(b, x.before, Spell(x.tree, x.after + more), v, x.after, more, depth, nodes, nodes + Nodes(v));
    if |slots| > 1 {
      assert more[1..] == SpellSlots(slots[1..], tail);
      SlotsRead(b, slots[1..], rest, depth, nodes + Nodes(v));
    } else {
      assert more[1..] == rest;
    }
  }

  lemma MoreCloses(after: Bytes, more: Bytes)
    requires AllSpace(after) && Delimited(more)
    ensures Closes(after + more)
  {
    hide AllSpace;
    SpaceCloses(after, more);
  }

  lemma EntryFacts(b: Budget, entries: seq<Entry>, tail: Bytes, seen: set<Bytes>)
    requires entries != [] && SoundEntries(entries) && WellFormedMembers(b, EntryValues(entries), seen)
    ensures var e, values := entries[0], EntryValues(entries);
      && AllSpace(e.before) && SoundPieces(e.key) && AllSpace(e.colon) && AllSpace(e.space) && SoundTree(e.tree) && AllSpace(e.after)
      && SoundEntries(entries[1..])
      && values == [Member(PiecesValue(e.key), ValueOf(e.tree))] + EntryValues(entries[1..])
      && values[0] == Member(PiecesValue(e.key), ValueOf(e.tree)) && values[1..] == EntryValues(entries[1..])
      && var more := if |entries| == 1 then tail else [COMMA] + SpellEntries(entries[1..], tail);
         SpellEntries(entries, tail) == e.before + SpellKey(e.key, e.colon, e.space + Spell(e.tree, e.after + more))
  {
    hide SoundTree, SoundPieces, Spell, SpellPieces, PiecesValue, AllSpace;
  }

  /** A key with its colon, and what follows. */
  function SpellKey(key: seq<Piece>, colon: Bytes, tail: Bytes): Bytes
  {
    [QUOTE] + SpellPieces(key, [QUOTE] + (colon + ([COLON] + tail)))
  }

  lemma KeyReads(b: Budget, key: seq<Piece>, colon: Bytes, space: Bytes, s: Bytes, nodes: nat)
    requires SoundPieces(key) && AllSpace(colon) && AllSpace(space) && Opens(s) && nodes < b.maxNodes
    ensures ParseKey(b, SpellKey(key, colon, space + s), nodes) == Ok(PiecesValue(key), s, nodes + 1)
    ensures Opens(SpellKey(key, colon, space + s))
  {
    hide StringBody, SpellPieces, PiecesValue, SoundPieces, AllSpace;
    var t := SpellKey(key, colon, space + s);
    PiecesRead(key, colon + ([COLON] + (space + s)));
    assert t[1..] == SpellPieces(key, [QUOTE] + (colon + ([COLON] + (space + s))));
    Skips(colon, [COLON] + (space + s));
    Skips(space, s);
    assert ([COLON] + (space + s))[1..] == space + s;
  }

  /** One turn of the member loop. */
  lemma OneMember(b: Budget, before: Bytes, s: Bytes, m: Member, text: Bytes, after: Bytes, more: Bytes,
                  depth: nat, nodes: nat, keyed: nat, next: nat, seen: set<Bytes>)
    requires AllSpace(before) && Opens(s) && ParseKey(b, s, nodes) == Ok(m.key, text, keyed) && m.key !in seen
    requires ParseValue(b, text, depth, keyed) == Ok(m.value, after + more, next)
    requires AllSpace(after) && more != [] && !Space(more[0])
    ensures more[0] == CLOSE_OBJECT ==> ParseMembers(b, before + s, depth, nodes, seen) == Ok([m], more[1..], next)
    ensures var r := ParseMembers(b, more[1..], depth, next, seen + {m.key});
      more[0] == COMMA && r.Ok? ==> ParseMembers(b, before + s, depth, nodes, seen) == Ok([m] + r.value, r.rest, r.nodes)
    ensures SkipSpace(before + s) == s
  {
    Skips(before, s);
    Skips(after, more);
    hide ParseValue, ParseKey, AllSpace, SkipSpace;
  }

  lemma {:induction false} EntriesRead(b: Budget, entries: seq<Entry>, rest: Bytes, depth: nat, nodes: nat, seen: set<Bytes>)
    requires entries != [] && SoundEntries(entries) && WellFormedMembers(b, EntryValues(entries), seen)
    requires depth + DepthMembers(EntryValues(entries)) <= b.maxDepth && nodes + NodesMembers(EntryValues(entries)) <= b.maxNodes
    ensures var s := SpellEntries(entries, [CLOSE_OBJECT] + rest);
      ParseMembers(b, s, depth, nodes, seen) == Ok(EntryValues(entries), rest, nodes + NodesMembers(EntryValues(entries))) && Opens(SkipSpace(s))
    decreases entries, 0
  {
    hide *;
    var e, tail := entries[0], [CLOSE_OBJECT] + rest;
    EntryFacts(b, entries, tail, seen);
    MembersFacts(b, EntryValues(entries), seen);
    var more := if |entries| == 1 then tail else [COMMA] + SpellEntries(entries[1..], tail);
    var v := ValueOf(e.tree);
    IsDelimited(more);
    MoreCloses(e.after, more);
    TreeReads(b, e.tree, e.after + more, depth, nodes + 1);
    var text := Spell(e.tree, e.after + more);
    KeyReads(b, e.key, e.colon, e.space, text, nodes);
    OneMember(b, e.before, SpellKey(e.key, e.colon, e.space + text), Member(PiecesValue(e.key), v), text, e.after, more,
              depth, nodes, nodes + 1, nodes + 1 + Nodes(v), seen);
    if |entries| > 1 {
      assert more[1..] == SpellEntries(entries[1..], tail);
      EntriesRead(b, entries[1..], rest, depth, nodes + 1 + Nodes(v), seen + {PiecesValue(e.key)});
    } else {
      assert more[1..] == rest;
    }
  }

  // ---- values: what is read is spelled ----

  lemma ReadWord(b: Budget, s: Bytes, depth: nat, nodes: nat)
    requires ParseValue(b, s, depth, nodes).Ok? && s != [] && s[0] != OPEN_ARRAY && s[0] != OPEN_OBJECT && s[0] != QUOTE
    ensures var r := ParseValue(b, s, depth, nodes); SoundTree(Word(r.value)) && s == Spell(Word(r.value), r.rest)
  {
    hide NumberLen, IsNumber, StringBody, ParseItems, ParseMembers;
    var r := ParseValue(b, s, depth, nodes);
    if r.value.Number? {
      var n := NumberLen(s).value;
      NumberPrefix(s, n);
      NumbersExactly(s[..n]);
    }
  }

  lemma TreeOf(b: Budget, s: Bytes, depth: nat, nodes: nat) returns (t: Tree)
    requires ParseValue(b, s, depth, nodes).Ok?
    ensures var r := ParseValue(b, s, depth, nodes); SoundTree(t) && s == Spell(t, r.rest) && ValueOf(t) == r.value
    decreases |s|, 0
  {
    hide *;
    ReadSomething(b, s, depth, nodes);
    if s[0] == OPEN_ARRAY {
      var inner := SkipSpace(s[1..]);
      if inner != [] && inner[0] == CLOSE_ARRAY {
        var w := SkipSplits(s[1..]);
        t := List(w, []);
        EmptyList(b, s, w, depth, nodes);
      } else {
        ReadList(b, s, depth, nodes);
        var slots := SlotsOf(b, s[1..], depth + 1, nodes + 1);
        t := List([], slots);
        FullList(b, s, slots, depth, nodes);
      }
    } else if s[0] == OPEN_OBJECT {
      var inner := SkipSpace(s[1..]);
      if inner != [] && inner[0] == CLOSE_OBJECT {
        var w := SkipSplits(s[1..]);
        t := Dict(w, []);
        EmptyDict(b, s, w, depth, nodes);
      } else {
        ReadDict(b, s, depth, nodes);
        var entries := EntriesOf(b, s[1..], depth + 1, nodes + 1, {});
        t := Dict([], entries);
        FullDict(b, s, entries, depth, nodes);
      }
    } else if s[0] == QUOTE {
      ReadText(b, s, depth, nodes);
      var pieces := PiecesOf(s[1..]);
      t := Text(pieces);
      FullText(b, s, pieces, depth, nodes);
    } else {
      ReadWord(b, s, depth, nodes);
      t := Word(ParseValue(b, s, depth, nodes).value);
      WordIs(t);
    }
  }

  lemma WordIs(t: Tree)
    requires t.Word? && SoundTree(t)
    ensures ValueOf(t) == t.value
  {
  }

  lemma ReadSomething(b: Budget, s: Bytes, depth: nat, nodes: nat)
    requires ParseValue(b, s, depth, nodes).Ok?
    ensures s != []
  {
  }

  lemma ReadText(b: Budget, s: Bytes, depth: nat, nodes: nat)
    requires ParseValue(b, s, depth, nodes).Ok? && s != [] && s[0] == QUOTE
    ensures var r := ParseValue(b, s, depth, nodes); StringBody(s[1..]) == Some((r.value.text, r.rest)) && r.value == Str(r.value.text)
  {
    hide StringBody, ParseItems, ParseMembers;
  }

  lemma FullText(b: Budget, s: Bytes, pieces: seq<Piece>, depth: nat, nodes: nat)
    requires ParseValue(b, s, depth, nodes).Ok? && s != [] && s[0] == QUOTE && SoundPieces(pieces)
    requires var r := ParseValue(b, s, depth, nodes); s[1..] == SpellPieces(pieces, [QUOTE] + r.rest) && r.value == Str(PiecesValue(pieces))
    ensures var r := ParseValue(b, s, depth, nodes); SoundTree(Text(pieces)) && s == Spell(Text(pieces), r.rest) && ValueOf(Text(pieces)) == r.value
  {
    hide ParseValue, SpellPieces, PiecesValue;
    assert s == [QUOTE] + s[1..];
  }

  lemma EmptyList(b: Budget, s: Bytes, w: Bytes, depth: nat, nodes: nat)
    requires ParseValue(b, s, depth, nodes).Ok? && s != [] && s[0] == OPEN_ARRAY
    requires AllSpace(w) && s[1..] == w + SkipSpace(s[1..]) && SkipSpace(s[1..]) != [] && SkipSpace(s[1..])[0] == CLOSE_ARRAY
    ensures var r := ParseValue(b, s, depth, nodes); SoundTree(List(w, [])) && s == Spell(List(w, []), r.rest) && ValueOf(List(w, [])) == r.value
  {
    hide ParseItems, ParseMembers, AllSpace;
    var t := SkipSpace(s[1..]);
    assert s == [OPEN_ARRAY] + s[1..] && t == [CLOSE_ARRAY] + t[1..];
  }

  lemma EmptyDict(b: Budget, s: Bytes, w: Bytes, depth: nat, nodes: nat)
    requires ParseValue(b, s, depth, nodes).Ok? && s != [] && s[0] == OPEN_OBJECT
    requires AllSpace(w) && s[1..] == w + SkipSpace(s[1..]) && SkipSpace(s[1..]) != [] && SkipSpace(s[1..])[0] == CLOSE_OBJECT
    ensures var r := ParseValue(b, s, depth, nodes); SoundTree(Dict(w, [])) && s == Spell(Dict(w, []), r.rest) && ValueOf(Dict(w, [])) == r.value
  {
    hide ParseItems, ParseMembers, AllSpace;
    var t := SkipSpace(s[1..]);
    assert s == [OPEN_OBJECT] + s[1..] && t == [CLOSE_OBJECT] + t[1..];
  }

  lemma ReadList(b: Budget, s: Bytes, depth: nat, nodes: nat)
    requires ParseValue(b, s, depth, nodes).Ok? && s != [] && s[0] == OPEN_ARRAY
    requires var inner := SkipSpace(s[1..]); !(inner != [] && inner[0] == CLOSE_ARRAY)
    ensures var r, q := ParseValue(b, s, depth, nodes), ParseItems(b, s[1..], depth + 1, nodes + 1);
      q.Ok? && r.value == Array(q.value) && r.rest == q.rest
  {
    hide ParseItems, ParseMembers;
    SkippedItems(b, s[1..], depth + 1, nodes + 1);
  }

  lemma ReadDict(b: Budget, s: Bytes, depth: nat, nodes: nat)
    requires ParseValue(b, s, depth, nodes).Ok? && s != [] && s[0] == OPEN_OBJECT
    requires var inner := SkipSpace(s[1..]); !(inner != [] && inner[0] == CLOSE_OBJECT)
    ensures var r, q := ParseValue(b, s, depth, nodes), ParseMembers(b, s[1..], depth + 1, nodes + 1, {});
      q.Ok? && r.value == Object(q.value) && r.rest == q.rest
  {
    hide ParseItems, ParseMembers;
    SkippedMembers(b, s[1..], depth + 1, nodes + 1, {});
  }

  lemma FullList(b: Budget, s: Bytes, slots: seq<Slot>, depth: nat, nodes: nat)
    requires ParseValue(b, s, depth, nodes).Ok? && s != [] && s[0] == OPEN_ARRAY && slots != [] && SoundSlots(slots)
    requires var r := ParseValue(b, s, depth, nodes); s[1..] == SpellSlots(slots, [CLOSE_ARRAY] + r.rest) && r.value == Array(SlotValues(slots))
    ensures var r := ParseValue(b, s, depth, nodes); SoundTree(List([], slots)) && s == Spell(List([], slots), r.rest) && ValueOf(List([], slots)) == r.value
  {
    hide ParseValue, SpellSlots, SlotValues, SoundSlots;
    assert s == [OPEN_ARRAY] + ([] + s[1..]);
  }

  lemma FullDict(b: Budget, s: Bytes, entries: seq<Entry>, depth: nat, nodes: nat)
    requires ParseValue(b, s, depth, nodes).Ok? && s != [] && s[0] == OPEN_OBJECT && entries != [] && SoundEntries(entries)
    requires var r := ParseValue(b, s, depth, nodes); s[1..] == SpellEntries(entries, [CLOSE_OBJECT] + r.rest) && r.value == Object(EntryValues(entries))
    ensures var r := ParseValue(b, s, depth, nodes); SoundTree(Dict([], entries)) && s == Spell(Dict([], entries), r.rest) && ValueOf(Dict([], entries)) == r.value
  {
    hide ParseValue, SpellEntries, EntryValues, SoundEntries;
    assert s == [OPEN_OBJECT] + ([] + s[1..]);
  }

  /** What one turn of the element loop went through. */
  lemma ItemRead(b: Budget, s: Bytes, depth: nat, nodes: nat)
    requires ParseItems(b, s, depth, nodes).Ok?
    ensures var r, v := ParseItems(b, s, depth, nodes), ParseValue(b, SkipSpace(s), depth, nodes);
      && v.Ok? && |v.rest| < |s|
      && var t := SkipSpace(v.rest);
         && t != [] && |t| <= |v.rest|
         && (if t[0] == CLOSE_ARRAY then r.value == [v.value] && r.rest == t[1..]
             else
               var q := ParseItems(b, t[1..], depth, v.nodes);
               t[0] == COMMA && q.Ok? && r.value == [v.value] + q.value && r.rest == q.rest)
  {
    hide ParseValue;
  }

  lemma SlotsOf(b: Budget, s: Bytes, depth: nat, nodes: nat) returns (slots: seq<Slot>)
    requires ParseItems(b, s, depth, nodes).Ok?
    ensures var r := ParseItems(b, s, depth, nodes);
      slots != [] && SoundSlots(slots) && s == SpellSlots(slots, [CLOSE_ARRAY] + r.rest) && SlotValues(slots) == r.value
    decreases |s|, 1
  {
    hide *;
    ItemRead(b, s, depth, nodes);
    var r, v := ParseItems(b, s, depth, nodes), ParseValue(b, SkipSpace(s), depth, nodes);
    var before := SkipSplits(s);
    var tree := TreeOf(b, SkipSpace(s), depth, nodes);
    var after := SkipSplits(v.rest);
    var more := SkipSpace(v.rest);
    assert more == [more[0]] + more[1..];
    NothingSound();
    if more[0] == CLOSE_ARRAY {
      slots := AddSlot(before, tree, after, more, [], [CLOSE_ARRAY] + r.rest);
    } else {
      var rest := SlotsOf(b, more[1..], depth, v.nodes);
      slots := AddSlot(before, tree, after, more, rest, [CLOSE_ARRAY] + r.rest);
    }
  }

  lemma NothingSound()
    ensures SoundSlots([]) && SoundEntries([])
  {
  }

  lemma AddSlot(before: Bytes, tree: Tree, after: Bytes, more: Bytes, rest: seq<Slot>, tail: Bytes) returns (slots: seq<Slot>)
    requires AllSpace(before) && SoundTree(tree) && AllSpace(after) && SoundSlots(rest)
    requires more == if rest == [] then tail else [COMMA] + SpellSlots(rest, tail)
    ensures slots != [] && SoundSlots(slots) && SlotValues(slots) == [ValueOf(tree)] + SlotValues(rest)
    ensures SpellSlots(slots, tail) == before + Spell(tree, after + more)
    ensures SlotValues([]) == [] && [ValueOf(tree)] + [] == [ValueOf(tree)]
  {
    hide SoundTree, Spell, AllSpace;
    slots := [Slot(before, tree, after)] + rest;
    assert slots[1..] == rest;
  }

  /** What one turn of the member loop went through. */
  lemma MemberRead(b: Budget, s: Bytes, depth: nat, nodes: nat, seen: set<Bytes>)
    requires ParseMembers(b, s, depth, nodes, seen).Ok?
    ensures var r, k := ParseMembers(b, s, depth, nodes, seen), ParseKey(b, SkipSpace(s), nodes);
      && k.Ok? && |k.rest| < |s|
      && var v := ParseValue(b, k.rest, depth, k.nodes);
         && v.Ok? && |v.rest| < |s|
         && var t := SkipSpace(v.rest);
            && t != [] && |t| <= |v.rest|
            && (if t[0] == CLOSE_OBJECT then r.value == [Member(k.value, v.value)] && r.rest == t[1..]
                else
                  var q := ParseMembers(b, t[1..], depth, v.nodes, seen + {k.value});
                  t[0] == COMMA && q.Ok? && r.value == [Member(k.value, v.value)] + q.value && r.rest == q.rest)
  {
    hide ParseValue, ParseKey;
  }

  lemma KeyOf(b: Budget, s: Bytes, nodes: nat) returns (key: seq<Piece>, colon: Bytes, space: Bytes)
    requires ParseKey(b, s, nodes).Ok?
    ensures SoundPieces(key) && AllSpace(colon) && AllSpace(space)
    ensures var k := ParseKey(b, s, nodes); s == SpellKey(key, colon, space + k.rest) && PiecesValue(key) == k.value
  {
    hide StringBody, SpellPieces, PiecesValue, SoundPieces, AllSpace;
    key := PiecesOf(s[1..]);
    var k := StringBody(s[1..]).value;
    var t := SkipSpace(k.1);
    colon := SkipSplits(k.1);
    space := SkipSplits(t[1..]);
    assert t == [COLON] + t[1..];
    assert s == [QUOTE] + s[1..];
  }

  lemma EntriesOf(b: Budget, s: Bytes, depth: nat, nodes: nat, seen: set<Bytes>) returns (entries: seq<Entry>)
    requires ParseMembers(b, s, depth, nodes, seen).Ok?
    ensures var r := ParseMembers(b, s, depth, nodes, seen);
      entries != [] && SoundEntries(entries) && s == SpellEntries(entries, [CLOSE_OBJECT] + r.rest) && EntryValues(entries) == r.value
    decreases |s|, 1
  {
    hide *;
    MemberRead(b, s, depth, nodes, seen);
    var r, k := ParseMembers(b, s, depth, nodes, seen), ParseKey(b, SkipSpace(s), nodes);
    var v := ParseValue(b, k.rest, depth, k.nodes);
    var before := SkipSplits(s);
    var key, colon, space := KeyOf(b, SkipSpace(s), nodes);
    var tree := TreeOf(b, k.rest, depth, k.nodes);
    var after := SkipSplits(v.rest);
    var more := SkipSpace(v.rest);
    assert more == [more[0]] + more[1..];
    var e := Entry(before, key, colon, space, tree, after);
    NothingSound();
    if more[0] == CLOSE_OBJECT {
      entries := AddEntry(e, more, [], [CLOSE_OBJECT] + r.rest);
    } else {
      var rest := EntriesOf(b, more[1..], depth, v.nodes, seen + {k.value});
      entries := AddEntry(e, more, rest, [CLOSE_OBJECT] + r.rest);
    }
  }

  lemma AddEntry(e: Entry, more: Bytes, rest: seq<Entry>, tail: Bytes) returns (entries: seq<Entry>)
    requires AllSpace(e.before) && SoundPieces(e.key) && AllSpace(e.colon) && AllSpace(e.space) && SoundTree(e.tree) && AllSpace(e.after) && SoundEntries(rest)
    requires more == if rest == [] then tail else [COMMA] + SpellEntries(rest, tail)
    ensures var m := Member(PiecesValue(e.key), ValueOf(e.tree));
      && entries != [] && SoundEntries(entries) && EntryValues(entries) == [m] + EntryValues(rest)
      && EntryValues([]) == [] && [m] + [] == [m]
    ensures SpellEntries(entries, tail) == e.before + SpellKey(e.key, e.colon, e.space + Spell(e.tree, e.after + more))
  {
    hide SoundTree, Spell, AllSpace, SoundPieces, SpellPieces, PiecesValue;
    entries := [e] + rest;
    assert entries[1..] == rest;
  }

  // ---- the whole text ----

  /** The text is a value of the grammar with spaces around it. */
  ghost predicate Spells(raw: Bytes, v: Value)
  {
    exists before: Bytes, t: Tree, after: Bytes ::
      AllSpace(before) && AllSpace(after) && SoundTree(t) && raw == before + Spell(t, after) && v == ValueOf(t)
  }

  /** A text is parsed as a value exactly when it spells the value by the grammar, no object in it
      names a key twice, its numbers are within the number budget, and it is neither too deep
      nor too large. */
  lemma ParsesExactly(b: Budget, raw: Bytes, v: Value)
    ensures Parse(b, raw) == Some(v) <==> Spells(raw, v) && WellFormed(b, v) && Depth(v) <= b.maxDepth && Nodes(v) <= b.maxNodes
  {
    hide *;
    if Parse(b, raw) == Some(v) {
      ParsedIsSpelled(b, raw, v);
    }
    if Spells(raw, v) && WellFormed(b, v) && Depth(v) <= b.maxDepth && Nodes(v) <= b.maxNodes {
      SpelledIsParsed(b, raw, v);
    }
  }

  lemma ParsedIsSpelled(b: Budget, raw: Bytes, v: Value)
    requires Parse(b, raw) == Some(v)
    ensures Spells(raw, v) && WellFormed(b, v) && Depth(v) <= b.maxDepth && Nodes(v) <= b.maxNodes
  {
    hide ParseValue, SkipSpace, Spell, SoundTree, ValueOf, AllSpace, WellFormed, Depth, Nodes;
    var s := SkipSpace(raw);
    var r := ParseValue(b, s, 0, 0);
    var before := SkipSplits(raw);
    var t := TreeOf(b, s, 0, 0);
    var after := SkipSplits(r.rest);
    assert after + [] == after;
    ParseSound(b, s, 0, 0);
  }

  lemma SpelledIsParsed(b: Budget, raw: Bytes, v: Value)
    requires Spells(raw, v) && WellFormed(b, v) && Depth(v) <= b.maxDepth && Nodes(v) <= b.maxNodes
    ensures Parse(b, raw) == Some(v)
  {
    hide ParseValue, SkipSpace, Spell, SoundTree, ValueOf, AllSpace, WellFormed, Depth, Nodes;
    var before, t, after :| AllSpace(before) && AllSpace(after) && SoundTree(t) && raw == before + Spell(t, after) && v == ValueOf(t);
    assert after + [] == after;
    SpaceCloses(after, []);
    TreeReads(b, t, after, 0, 0);
    Skips(before, Spell(t, after));
    Skips(after, []);
  }
}
