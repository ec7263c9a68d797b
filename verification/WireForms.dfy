/** The form the encoder chooses for each character of a string: the shortest one, and never a
    line or paragraph separator (internal/sessionwire/message.go:156-207). */
module WireForms {
  import opened Utf8
  import opened Frame
  import opened Wire

  /** U+2028 and U+2029 in UTF-8. */
  const LINE: Bytes := [0xE2, 0x80, 0xA8]
  const PARAGRAPH: Bytes := [0xE2, 0x80, 0xA9]

  /** The bytes of ASCII that have an escape of two characters. */
  const SHORT: map<byte, Bytes> := map[
    34 := Ascii("\\\""), 92 := Ascii("\\\\"), 8 := Ascii("\\b"), 12 := Ascii("\\f"), 10 := Ascii("\\n"), 13 := Ascii("\\r"), 9 := Ascii("\\t")]

  /** A character of ASCII stands for itself, or has a short escape, or one with two digits. */
  lemma AsciiForms(b: byte, rest: Bytes)
    requires b < 0x80
    ensures b in SHORT ==> StepOut([b] + rest) == SHORT[b]
    ensures b !in SHORT && b >= 0x20 ==> StepOut([b] + rest) == [b]
    ensures b !in SHORT && b < 0x20 ==> |StepOut([b] + rest)| == 6 && StepOut([b] + rest)[..4] == Ascii("\\u00")
  {
    assert ([b] + rest)[0] == b;
    assert Ascii("\\u00") == [92, 117, 48, 48];
    assert Ascii("\\\"") == [92, 34] && Ascii("\\\\") == [92, 92] && Ascii("\\b") == [92, 98] && Ascii("\\f") == [92, 102];
    assert Ascii("\\n") == [92, 110] && Ascii("\\r") == [92, 114] && Ascii("\\t") == [92, 116];
  }

  /** Every other character stands for itself, but for the two separators. */
  lemma OtherForms(s: Bytes)
    requires s != [] && s[0] >= 0x80 && StepLen(s) > 0
    ensures s[..StepLen(s)] == LINE ==> StepOut(s) == Ascii("\\u2028")
    ensures s[..StepLen(s)] == PARAGRAPH ==> StepOut(s) == Ascii("\\u2029")
    ensures s[..StepLen(s)] !in {LINE, PARAGRAPH} ==> StepOut(s) == s[..StepLen(s)]
  {
    assert Ascii("\\u2028") == [92, 117, 50, 48, 50, 56] && Ascii("\\u2029") == [92, 117, 50, 48, 50, 57];
    var rune := s[..StepLen(s)];
    assert forall i :: 0 <= i < |rune| ==> rune[i] == s[i];
    if Separator(s) {
      assert rune == if s[2] == 0xA8 then LINE else PARAGRAPH;
    }
  }

  /** There is a separator at this place. */
  predicate SeparatorAt(s: Bytes, i: nat)
  {
    i + 3 <= |s| && (s[i..i + 3] == LINE || s[i..i + 3] == PARAGRAPH)
  }

  lemma SeparatorStarts(s: Bytes, i: nat)
    requires SeparatorAt(s, i)
    ensures i + 3 <= |s| && s[i] == 0xE2 && s[i + 1] == 0x80 && s[i + 2] in [0xA8, 0xA9]
  {
    var cut := s[i..i + 3];
    assert s[i] == cut[0] && s[i + 1] == cut[1] && s[i + 2] == cut[2];
  }

  /** A step writes 0xE2 only as the first byte of a character of three bytes. */
  lemma LeadOnlyFirst(s: Bytes, i: nat)
    requires s != [] && StepLen(s) > 0 && i < |StepOut(s)| && StepOut(s)[i] == 0xE2
    ensures i == 0 && s[0] >= 0x80 && StepLen(s) == 3 && StepOut(s) == s[..3] && !Separator(s)
  {
  }

  /** No string is written with a line or paragraph separator in it, wherever one looks. */
  lemma {:induction false} NoSeparators(s: Bytes, i: nat)
    ensures !SeparatorAt(Body(s), i)
  {
    hide StepOut, StepLen, SeparatorAt, Separator;
    if s != [] && StepLen(s) != 0 && SeparatorAt(Body(s), i) {
      var out, rest := StepOut(s), Body(s[StepLen(s)..]);
      SeparatorStarts(Body(s), i);
      if i < |out| {
        LeadOnlyFirst(s, i);
        NotSeparated(s);
      } else {
        NoSeparators(s[StepLen(s)..], i - |out|);
        Later(out, rest, i);
      }
      assert false;
    } else if SeparatorAt(Body(s), i) {
      SeparatorStarts(Body(s), i);
      assert false;
    }
  }

  lemma NotSeparated(s: Bytes)
    requires |s| >= 3 && !Separator(s)
    ensures !(s[0] == 0xE2 && s[1] == 0x80 && s[2] in [0xA8, 0xA9])
  {
  }

  lemma Later(out: Bytes, rest: Bytes, i: nat)
    requires i >= |out| && SeparatorAt(out + rest, i)
    ensures SeparatorAt(rest, i - |out|)
  {
    assert (out + rest)[i..i + 3] == rest[i - |out|..i - |out| + 3];
  }
}
