/** The bounded text collector in HeadTail mode (core/tools/collector.go:52-281, 485-514). */
module Collector {
  import opened Utf8
  import opened Int64
  import opened Escape
  import opened Frame
  import opened Window

  const COLLECTOR_CHUNK: nat := 32768

  /** utf8PrefixView. */
  method PrefixView(input: Bytes, limit: nat) returns (r: Bytes)
    ensures r == Prefix(input, limit)
  {
    if limit >= |input| {
      return input;
    }
    var n := limit;
    while n > 0 && !Valid(input[..n])
      invariant 0 <= n <= limit
      invariant AlignDown(input, limit) == AlignDown(input, n)
    {
      n := n - 1;
    }
    r := input[..n];
  }

  /** utf8SuffixView. */
  method SuffixView(input: Bytes, limit: nat) returns (r: Bytes)
    ensures r == Suffix(input, limit)
  {
    if limit >= |input| {
      return input;
    }
    var start := |input| - limit;
    while start < |input| && !Valid(input[start..])
      invariant |input| - limit <= start <= |input|
      invariant AlignUp(input, |input| - limit) == AlignUp(input, start)
    {
      start := start + 1;
    }
    r := input[start..];
  }

  class TextCollector {
    const bodyBudget: nat
    const hasher: StreamHasher
    var pending: Bytes
    var total: int64
    var window: Bytes
    var headBytes: nat
    var omitted: bool
    ghost var raw: Bytes       // every byte written
    ghost var logical: Bytes   // the text accepted from them

    /** The window is the bounded view of the text accepted so far, and the hash has been
        fed exactly that text. */
    ghost predicate Settled()
      reads this, hasher
    {
      && hasher.Valid() && !hasher.done && hasher.text == logical
      && Utf8.Valid(logical)
      && total == |logical|
      && window == Kept(logical, bodyBudget)
      && headBytes == HeadLen(logical, bodyBudget)
      && omitted == (|logical| > bodyBudget)
    }

    /** While writing: the accepted text is the escaped form of the bytes written. */
    ghost predicate Writing()
      reads this, hasher
    {
      Settled() && Partial(logical, pending) == EscapeSoFar(raw)
    }

    constructor (bodyBudget: nat)
      ensures Writing() && raw == [] && this.bodyBudget == bodyBudget && fresh(hasher)
    {
      this.bodyBudget := bodyBudget;
      hasher := new StreamHasher();
      pending, total, window, headBytes, omitted := [], 0, [], 0, false;
      raw, logical := [], [];
    }

    /** Keeps the head and slides the tail: afterwards the window is the bounded view of the
        longer text. */
    method AppendHeadTail(piece: Bytes)
      requires Utf8.Valid(logical) && Utf8.Valid(piece) && piece != []
      requires window == Kept(logical, bodyBudget) && headBytes == HeadLen(logical, bodyBudget)
      requires omitted == (|logical| > bodyBudget)
      modifies this`window, this`headBytes, this`omitted
      ensures window == Kept(logical + piece, bodyBudget)
      ensures headBytes == HeadLen(logical + piece, bodyBudget)
      ensures omitted == (|logical + piece| > bodyBudget)
    {
      hide Utf8.Valid;
      var budget := bodyBudget;
      if budget <= 0 {
        omitted := true;
        NothingKept(logical + piece);
        NothingKept(logical);
        return;
      }
      if !omitted && |window| + |piece| <= budget {
        window := window + piece;
        headBytes := |window|;
        return;
      }
      var headBudget := budget / 2;
      var tailBudget := budget - headBudget;
      HeadSettles(logical, piece, budget);
      if !omitted {
        FirstOverflow(piece, headBudget, tailBudget);
      } else {
        SlideTail(piece, tailBudget);
      }
    }

    method FirstOverflow(piece: Bytes, headBudget: nat, tailBudget: nat)
      requires Utf8.Valid(logical) && Utf8.Valid(piece) && headBudget == bodyBudget / 2 && tailBudget == bodyBudget - headBudget
      requires !omitted && |logical| <= bodyBudget < |logical| + |piece| && window == logical && tailBudget > 0
      requires Prefix(logical + piece, headBudget) ==
        if |logical| >= headBudget then Prefix(logical, headBudget) else logical + Prefix(piece, headBudget - |logical|)
      modifies this`window, this`headBytes, this`omitted
      ensures window == Kept(logical + piece, bodyBudget) && headBytes == HeadLen(logical + piece, bodyBudget) && omitted
    {
      hide Utf8.Valid, Prefix, Suffix;
      var previous := window;
      var retained: Bytes;
      if |previous| >= headBudget {
        retained := PrefixView(previous, headBudget);
      } else {
        var more := PrefixView(piece, headBudget - |previous|);
        retained := previous + more;
      }
      headBytes := |retained|;
      assert retained == Prefix(logical + piece, headBudget);
      WiderSuffix(logical, piece, tailBudget);
      if |piece| >= tailBudget {
        var tail := SuffixView(piece, tailBudget);
        retained := retained + tail;
      } else {
        var tail := SuffixView(previous, tailBudget - |piece|);
        assert retained + tail + piece == retained + (tail + piece);
        retained := retained + tail + piece;
      }
      window := retained;
      omitted := true;
    }

    method SlideTail(piece: Bytes, tailBudget: nat)
      requires Utf8.Valid(logical) && Utf8.Valid(piece) && tailBudget == bodyBudget - bodyBudget / 2
      requires omitted && |logical| > bodyBudget && window == Kept(logical, bodyBudget) && headBytes == HeadLen(logical, bodyBudget)
      requires Prefix(logical + piece, bodyBudget / 2) == Prefix(logical, bodyBudget / 2)
      modifies this`window
      ensures window == Kept(logical + piece, bodyBudget) && headBytes == HeadLen(logical + piece, bodyBudget)
    {
      hide Utf8.Valid, Prefix, Suffix;
      SplitKept(logical, bodyBudget);
      var oldTail := window[headBytes..];
      TailSlides(logical, piece, tailBudget, oldTail);
      var fromOld: Bytes, fromPiece: Bytes;
      if |piece| >= tailBudget {
        fromOld := [];
        fromPiece := SuffixView(piece, tailBudget);
        assert [] + fromPiece == fromPiece;
      } else {
        fromOld := SuffixView(oldTail, tailBudget - |piece|);
        fromPiece := piece;
      }
      window := window[..headBytes] + (fromOld + fromPiece);
    }

    /** acceptLogical: refused only when the running total would overflow. */
    method AcceptLogical(piece: Bytes) returns (ok: bool)
      requires Settled() && Utf8.Valid(piece)
      modifies this`total, this`window, this`headBytes, this`omitted, this`logical, hasher
      ensures ok <==> |old(logical)| + |piece| <= MAX_INT64
      ensures ok ==> Settled() && logical == old(logical) + piece
    {
      hide Utf8.Valid, Kept, HeadLen;
      if piece == [] {
        assert logical + piece == logical;
        return true;
      }
      if |piece| > MAX_INT64 {
        return false;
      }
      var next := Add64(total, |piece|);
      if next.Overflow? {
        return false;
      }
      ok := hasher.WriteLogical(piece);
      if !ok {
        return false;
      }
      AppendHeadTail(piece);
      ValidConcat(logical, piece);
      total := next.value;
      logical := logical + piece;
    }

    /** One chunk of a write. */
    method ConsumeChunk(chunk: Bytes) returns (ok: bool)
      requires Writing()
      modifies this, hasher
      ensures ok <==> |EscapeSoFar(old(raw) + chunk).logical| <= MAX_INT64
      ensures ok ==> Writing() && raw == old(raw) + chunk
      ensures |pending| <= 3 && (pending != [] ==> !FullRune(pending))
    {
      hide Kept, HeadLen, EscapeSoFar, Utf8.Valid, StreamHasher.Valid;
      EscapeInTwo(raw, chunk);
      EscapeSoFarValid(pending + chunk);
      var piece: Bytes, rest: Bytes;
      if pending == [] && Utf8.Valid(chunk) {
        ValidPasses(chunk);
        assert pending + chunk == chunk;
        piece, rest := chunk, [];
      } else {
        piece, rest := EscapeValidPrefix(pending + chunk, false);
      }
      ok := AcceptLogical(piece);
      pending := rest;
      raw := raw + chunk;
    }

    /** Write: refused only when the text would outgrow 64 bits; otherwise the bytes go
        through in chunks and the collector has seen all of them. */
    method Write(p: Bytes) returns (ok: bool)
      requires Writing()
      modifies this, hasher
      ensures ok <==> |EscapeSoFar(old(raw) + p).logical| <= MAX_INT64
      ensures ok ==> Writing() && raw == old(raw) + p
    {
      hide Kept, HeadLen, EscapeSoFar, Utf8.Valid, StreamHasher.Valid;
      var todo := p;
      while todo != []
        invariant Writing() && raw + todo == old(raw) + p
        decreases |todo|
      {
        var n := |todo|;
        if n > COLLECTOR_CHUNK {
          n := COLLECTOR_CHUNK;
        }
        assert raw + todo == (raw + todo[..n]) + todo[n..];
        TextOnlyGrows(raw + todo[..n], todo[n..]);
        ok := ConsumeChunk(todo[..n]);
        if !ok {
          return;
        }
        todo := todo[n..];
      }
      assert raw + [] == raw;
      ok := true;
    }

    /** The end of the stream: an unfinished character is escaped, and the window is the
        bounded view of the whole escaped stream, however the bytes were split into writes. */
    method FinishBody() returns (ok: bool)
      requires Writing()
      modifies this, hasher
      ensures raw == old(raw)
      ensures ok <==> |EscapeAll(raw)| <= MAX_INT64
      ensures ok ==> Settled() && pending == [] && logical == EscapeAll(raw)
      ensures ok ==> window == Kept(EscapeAll(raw), bodyBudget) && headBytes == HeadLen(EscapeAll(raw), bodyBudget)
    {
      hide Kept, HeadLen, EscapeSoFar;
      EscapeAtEnd(raw);
      if pending != [] {
        var last := EscapeBytes(pending);
        EscapeEachValid(pending);
        pending := [];
        ok := AcceptLogical(last);
      } else {
        assert EscapeEach([]) == [] && logical + [] == logical;
        ok := true;
      }
    }
  }

  function Joined(writes: seq<Bytes>): Bytes
  {
    if writes == [] then [] else Joined(writes[..|writes| - 1]) + writes[|writes| - 1]
  }

  /** The bounded collector refines a simple function of the whole input: for every way of
      splitting the raw bytes into writes, it ends with the bounded view of the escaped
      stream. It gives up only when that stream outgrows 64 bits. */
  method Collect(writes: seq<Bytes>, budget: nat) returns (ok: bool, window: Bytes, head: nat, omitted: bool)
    ensures |EscapeAll(Joined(writes))| <= MAX_INT64 ==> ok
    ensures ok ==> window == Kept(EscapeAll(Joined(writes)), budget)
    ensures ok ==> head == HeadLen(EscapeAll(Joined(writes)), budget)
    ensures ok ==> omitted == (|EscapeAll(Joined(writes))| > budget)
  {
    hide Kept, HeadLen, EscapeSoFar, EscapeAll, Utf8.Valid, StreamHasher.Valid;
    var c := new TextCollector(budget);
    for i := 0 to |writes|
      invariant fresh(c) && fresh(c.hasher) && c.bodyBudget == budget
      invariant c.Writing() && c.raw == Joined(writes[..i])
    {
      assert writes[..i + 1][..i] == writes[..i];
      WritesSoFar(writes, i + 1);
      ok := c.Write(writes[i]);
      if !ok {
        return false, [], 0, false;
      }
    }
    assert writes[..|writes|] == writes;
    ok := c.FinishBody();
    window, head, omitted := c.window, c.headBytes, c.omitted;
  }

  lemma {:induction false} WritesSoFar(writes: seq<Bytes>, i: nat)
    requires i <= |writes|
    ensures |EscapeSoFar(Joined(writes[..i])).logical| <= |EscapeAll(Joined(writes))|
    decreases |writes| - i
  {
    hide EscapeSoFar, EscapeAll;
    if i == |writes| {
      assert writes[..i] == writes;
      EscapeAtEnd(Joined(writes));
    } else {
      assert writes[..i + 1][..i] == writes[..i];
      TextOnlyGrows(Joined(writes[..i]), writes[i]);
      WritesSoFar(writes, i + 1);
    }
  }

  lemma NothingKept(text: Bytes)
    ensures Kept(text, 0) == [] && HeadLen(text, 0) == 0
  {
    if text != [] {
      assert AlignUp(text, |text|) == |text|;
    }
  }

  lemma WiderSuffix(a: Bytes, b: Bytes, n: nat)
    requires Valid(a) && Valid(b) && |a| + |b| > n
    ensures Suffix(a + b, n) == if |b| >= n then Suffix(b, n) else Suffix(a, n - |b|) + b
  {
    hide Suffix, Valid;
    if |b| >= n {
      SuffixInSecond(a, b, n);
    } else {
      SuffixInFirst(a, b, n);
    }
  }

  lemma TextOnlyGrows(s: Bytes, t: Bytes)
    ensures |EscapeSoFar(s).logical| <= |EscapeSoFar(s + t).logical|
  {
    EscapeInTwo(s, t);
  }
}
