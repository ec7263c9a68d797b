/** How a collector turns raw bytes into valid text: characters pass, any byte that starts
    none becomes \xHH, and an unfinished character at the end of a write waits for the next
    (core/tools/collector.go:138-192, 516-527). */
module Escape {
  import opened Utf8
  import opened Wrappers

  function HexDigit(d: nat): byte
    requires d < 16
  {
    if d < 10 then 48 + d else 87 + d
  }

  function EscapedByte(b: byte): Bytes
  {
    [92, 120, HexDigit(b / 16), HexDigit(b % 16)]
  }

  /** A hexadecimal digit of either case. */
  function HexValue(b: byte): Option<nat>
  {
    if 48 <= b <= 57 then Some(b - 48) else if 97 <= b <= 102 then Some(b - 87) else if 65 <= b <= 70 then Some(b - 55) else None
  }

  /** A number in hexadecimal digits, the first one counting most. */
  function ReadHex(s: Bytes): Option<nat>
  {
    if s == [] then Some(0)
    else
      var front, digit := ReadHex(s[..|s| - 1]), HexValue(s[|s| - 1]);
      if front.None? || digit.None? then None else Some(front.value * 16 + digit.value)
  }

  lemma DigitsAre(d: nat)
    requires d < 16
    ensures HexDigit(d) == "0123456789abcdef"[d] as int && HexValue(HexDigit(d)) == Some(d)
  {
  }

  /** Digits of either case, and nothing else. */
  lemma DigitsOnly(b: byte)
    ensures HexValue(b).Some? <==> '0' as int <= b <= '9' as int || 'a' as int <= b <= 'f' as int || 'A' as int <= b <= 'F' as int
    ensures HexValue(b).Some? ==> HexValue(b).value < 16
  {
  }

  /** An escaped byte names its byte. */
  lemma EscapedByteReads(b: byte)
    ensures var e := EscapedByte(b); |e| == 4 && e[..2] == [92, 120] && ReadHex(e[2..]) == Some(b)
  {
    var e := EscapedByte(b);
    DigitsAre(b / 16);
    DigitsAre(b % 16);
    hide HexDigit, HexValue;
    var two := e[2..];
    assert two[..1][..0] == [] && two[..1][0] == e[2] && two[1] == e[3];
    assert ReadHex(two[..1]) == Some(b / 16);
  }

  /** How many bytes the next step takes, and what it makes of them. */
  function Taken(s: Bytes): (k: nat)
    requires s != []
    ensures 1 <= k <= |s|
  {
    if RuneLen(s) == 0 then 1 else RuneLen(s)
  }

  function Piece(s: Bytes): Bytes
    requires s != []
  {
    if RuneLen(s) == 0 then EscapedByte(s[0]) else s[..RuneLen(s)]
  }

  /** The whole stream at once, nothing held back. */
  function EscapeAll(s: Bytes): Bytes
  {
    if s == [] then [] else Piece(s) + EscapeAll(s[Taken(s)..])
  }

  datatype Partial = Partial(logical: Bytes, rest: Bytes)

  /** What can be said of the stream so far, and the unfinished character it ends with. */
  function EscapeSoFar(s: Bytes): Partial
  {
    if s == [] || !FullRune(s) then Partial([], s)
    else
      var r := EscapeSoFar(s[Taken(s)..]);
      Partial(Piece(s) + r.logical, r.rest)
  }

  function EscapeEach(s: Bytes): Bytes
  {
    if s == [] then [] else EscapedByte(s[0]) + EscapeEach(s[1..])
  }

  // ---- chunking does not matter ----

  lemma FullNeedsNothing(s: Bytes, t: Bytes)
    requires FullRune(s)
    ensures FullRune(s + t) && Taken(s + t) == Taken(s) && Piece(s + t) == Piece(s)
  {
    FullRuneIsDecided(s, t);
    assert forall i :: 0 <= i < |s| ==> (s + t)[i] == s[i];
  }

  lemma Joined(s: Bytes, t: Bytes)
    requires s != []
    ensures (s + t)[Taken(s)..] == s[Taken(s)..] + t
  {
  }

  /** Escaping in two goes, carrying the unfinished character over, is escaping in one. */
  lemma {:induction false} EscapeInTwo(s: Bytes, t: Bytes)
    ensures var first := EscapeSoFar(s); var second := EscapeSoFar(first.rest + t);
      EscapeSoFar(s + t) == Partial(first.logical + second.logical, second.rest)
  {
    hide FullRune, Taken, Piece;
    if s == [] || !FullRune(s) {
      var all := EscapeSoFar(s + t);
      assert [] + all.logical == all.logical;
    } else {
      FullNeedsNothing(s, t);
      Joined(s, t);
      EscapeInTwo(s[Taken(s)..], t);
      var first := EscapeSoFar(s[Taken(s)..]);
      var second := EscapeSoFar(first.rest + t);
      assert Piece(s) + (first.logical + second.logical) == (Piece(s) + first.logical) + second.logical;
    }
  }

  /** The last write's unfinished character is escaped byte by byte, which is what escaping
      the whole stream at once does with it. */
  lemma {:induction false} EscapeAtEnd(s: Bytes)
    ensures EscapeAll(s) == EscapeSoFar(s).logical + EscapeEach(EscapeSoFar(s).rest)
  {
    hide FullRune, Taken, Piece;
    if s == [] {
    } else if !FullRune(s) {
      Unfinished(s);
      assert [] + EscapeEach(s) == EscapeEach(s);
    } else {
      EscapeAtEnd(s[Taken(s)..]);
      var r := EscapeSoFar(s[Taken(s)..]);
      assert Piece(s) + (r.logical + EscapeEach(r.rest)) == (Piece(s) + r.logical) + EscapeEach(r.rest);
    }
  }

  lemma {:induction false} AllContinuation(s: Bytes)
    requires forall i :: 0 <= i < |s| ==> Continues(s[i])
    ensures EscapeAll(s) == EscapeEach(s)
  {
    if s != [] {
      AllContinuation(s[1..]);
    }
  }

  lemma Unfinished(s: Bytes)
    requires s != [] && !FullRune(s)
    ensures EscapeAll(s) == EscapeEach(s)
  {
    var n := Announced(s[0]);
    assert 1 <= |s| < n;
    assert forall i :: 0 <= i < |s[1..]| ==> Continues(s[1..][i]);
    AllContinuation(s[1..]);
  }

  /** What is carried over is at most three bytes, the beginning of a character. */
  lemma {:induction false} RestIsUnfinished(s: Bytes)
    ensures var r := EscapeSoFar(s).rest; |r| <= 3 && (r != [] ==> !FullRune(r))
  {
    if s != [] && FullRune(s) {
      RestIsUnfinished(s[Taken(s)..]);
    }
  }

  // ---- the result is valid text ----

  lemma EscapedByteValid(b: byte)
    ensures Valid(EscapedByte(b))
  {
    var e := EscapedByte(b);
    assert e[1..][1..] == e[2..] && e[2..][1..] == e[3..] && e[3..][1..] == [];
    assert RuneLen(e) == 1 && RuneLen(e[1..]) == 1 && RuneLen(e[2..]) == 1 && RuneLen(e[3..]) == 1;
    assert Valid(e[3..]) && Valid(e[2..]) && Valid(e[1..]);
  }

  lemma {:induction false} EscapeSoFarValid(s: Bytes)
    ensures Valid(EscapeSoFar(s).logical)
  {
    if s != [] && FullRune(s) {
      EscapeSoFarValid(s[Taken(s)..]);
      PieceValid(s);
      ValidConcat(Piece(s), EscapeSoFar(s[Taken(s)..]).logical);
    }
  }

  lemma PieceValid(s: Bytes)
    requires s != []
    ensures Valid(Piece(s))
  {
    if RuneLen(s) == 0 {
      EscapedByteValid(s[0]);
    } else {
      OneRune(s);
    }
  }

  lemma {:induction false} EscapeEachValid(s: Bytes)
    ensures Valid(EscapeEach(s))
  {
    if s != [] {
      EscapedByteValid(s[0]);
      EscapeEachValid(s[1..]);
      ValidConcat(EscapedByte(s[0]), EscapeEach(s[1..]));
    }
  }

  /** Whatever the raw bytes, the escaped stream is valid UTF-8. */
  lemma EscapeAllValid(s: Bytes)
    ensures Valid(EscapeAll(s))
  {
    EscapeAtEnd(s);
    EscapeSoFarValid(s);
    EscapeEachValid(EscapeSoFar(s).rest);
    ValidConcat(EscapeSoFar(s).logical, EscapeEach(EscapeSoFar(s).rest));
  }

  /** Valid text passes through unchanged and leaves nothing waiting. */
  lemma {:induction false} ValidPasses(s: Bytes)
    requires Valid(s)
    ensures EscapeSoFar(s) == Partial(s, [])
  {
    hide FullRune, Piece, Taken, RuneLen;
    if s != [] {
      var n := RuneLen(s);
      RunePasses(s);
      ValidPasses(s[n..]);
      assert s == s[..n] + s[n..];
    }
  }

  lemma RunePasses(s: Bytes)
    requires RuneLen(s) > 0
    ensures FullRune(s) && Taken(s) == RuneLen(s) && Piece(s) == s[..RuneLen(s)]
  {
  }

  // ---- the loops ----

  /** escapeValidPrefix. */
  method EscapeValidPrefix(input: Bytes, final: bool) returns (logical: Bytes, rest: Bytes)
    ensures !final ==> Partial(logical, rest) == EscapeSoFar(input)
    ensures final ==> logical == EscapeAll(input) && rest == []
    ensures |rest| <= 3 && (rest != [] ==> !FullRune(rest))
  {
    RestIsUnfinished(input);
    hide FullRune, RuneLen, Taken, Piece, EscapeSoFar, EscapeAll;
    logical, rest := [], [];
    var i := 0;
    assert input[0..] == input;
    while i < |input|
      invariant 0 <= i <= |input|
      invariant !final ==> EscapeSoFar(input).logical == logical + EscapeSoFar(input[i..]).logical
      invariant !final ==> EscapeSoFar(input).rest == EscapeSoFar(input[i..]).rest
      invariant final ==> EscapeAll(input) == logical + EscapeAll(input[i..])
      decreases |input| - i
    {
      StepShape(input, i);
      StepForward(input[i..], logical);
      if input[i] >= 0x80 && !FullRune(input[i..]) && !final {
        rest := input[i..];
        return;
      }
      if input[i] < 0x80 {
        logical := logical + [input[i]];
        i := i + 1;
      } else {
        var n := RuneLen(input[i..]);
        if n == 0 {
          logical := logical + EscapedByte(input[i]);
          i := i + 1;
        } else {
          logical := logical + input[i..i + n];
          i := i + n;
        }
      }
    }
    assert input[i..] == [];
    NothingLeft();
  }

  lemma NothingLeft()
    ensures EscapeAll([]) == [] && EscapeSoFar([]) == Partial([], [])
  {
  }

  lemma StepShape(input: Bytes, i: nat)
    requires i < |input|
    ensures var tail := input[i..];
      && tail != [] && tail[Taken(tail)..] == input[i + Taken(tail)..]
      && Piece(tail) == (if input[i] < 0x80 then [input[i]] else if RuneLen(tail) == 0 then EscapedByte(input[i]) else input[i..i + RuneLen(tail)])
      && Taken(tail) == (if input[i] < 0x80 || RuneLen(tail) == 0 then 1 else RuneLen(tail))
      && (input[i] < 0x80 ==> FullRune(tail))
  {
    var tail := input[i..];
    assert tail[0] == input[i];
  }

  lemma StepForward(tail: Bytes, logical: Bytes)
    requires tail != []
    ensures logical + EscapeAll(tail) == (logical + Piece(tail)) + EscapeAll(tail[Taken(tail)..])
    ensures !FullRune(tail) ==> EscapeSoFar(tail) == Partial([], tail)
    ensures FullRune(tail) ==>
      && logical + EscapeSoFar(tail).logical == (logical + Piece(tail)) + EscapeSoFar(tail[Taken(tail)..]).logical
      && EscapeSoFar(tail).rest == EscapeSoFar(tail[Taken(tail)..]).rest
  {
    hide FullRune, Piece, Taken, EscapeAll, EscapeSoFar;
    Unfold(tail);
    Assoc(logical, Piece(tail), EscapeAll(tail[Taken(tail)..]));
    Assoc(logical, Piece(tail), EscapeSoFar(tail[Taken(tail)..]).logical);
  }

  lemma Unfold(s: Bytes)
    requires s != []
    ensures EscapeAll(s) == Piece(s) + EscapeAll(s[Taken(s)..])
    ensures !FullRune(s) ==> EscapeSoFar(s) == Partial([], s)
    ensures FullRune(s) ==> EscapeSoFar(s).logical == Piece(s) + EscapeSoFar(s[Taken(s)..]).logical
    ensures FullRune(s) ==> EscapeSoFar(s).rest == EscapeSoFar(s[Taken(s)..]).rest
  {
  }

  /** escapeBytes. */
  method EscapeBytes(input: Bytes) returns (output: Bytes)
    ensures output == EscapeEach(input)
  {
    output := [];
    for i := 0 to |input|
      invariant EscapeEach(input) == output + EscapeEach(input[i..])
    {
      output := output + EscapedByte(input[i]);
      assert input[i..][1..] == input[i + 1..];
    }
  }
}
