/** Shortening the body of one tool result: what is kept of the front and the back of its
    texts, and the marker between them (runtime/loops/context_tools.go:444-534). */
module Shortening {
  import opened Utf8
  import opened Wrappers
  import opened Frame
  import opened Marker
  import opened Truncate

  const OMITTED_BODY: Bytes := Ascii("[serpe-tool-result-omitted:v1]")

  /** Same blocks in the same places, only texts may differ. */
  ghost predicate OnlyTexts(before: seq<Block>, after: seq<Block>)
  {
    |before| == |after| && forall i :: 0 <= i < |before| ==>
      (before[i].Text? <==> after[i].Text?) && (!before[i].Text? ==> after[i] == before[i])
  }

  // ---- the front ----

  /** What the scan from the front keeps: of each text the longest prefix of whole characters
      that fits what is left. It goes on behind a text it had to cut. */
  function Front(children: seq<Block>, limit: nat): Bytes
  {
    if children == [] then []
    else if !children[0].Text? then Front(children[1..], limit)
    else
      var kept := Prefix(children[0].text, limit);
      PrefixShort(children[0].text, limit);
      kept + Front(children[1..], limit - |kept|)
  }

  lemma PrefixShort(s: Bytes, n: nat)
    ensures |Prefix(s, n)| <= n && |Prefix(s, n)| <= |s| && Prefix(s, n) == s[..|Prefix(s, n)|]
    ensures |Prefix(s, n)| < |s| ==> n < |s|
    ensures Valid(s) ==> Valid(Prefix(s, n))
  {
    hide Valid;
  }

  lemma SuffixShort(s: Bytes, n: nat)
    ensures |Suffix(s, n)| <= n && |Suffix(s, n)| <= |s| && Suffix(s, n) == s[|s| - |Suffix(s, n)|..]
    ensures |Suffix(s, n)| < |s| ==> n < |s|
    ensures Valid(s) ==> Valid(Suffix(s, n))
  {
    hide Valid;
  }

  lemma {:induction false} FrontFits(children: seq<Block>, limit: nat)
    requires AllValid(children)
    ensures |Front(children, limit)| <= limit && Valid(Front(children, limit))
  {
    hide Valid, Prefix;
    if children == [] {
      NothingValid([]);
    } else if !children[0].Text? {
      FrontFits(children[1..], limit);
    } else {
      var kept := Prefix(children[0].text, limit);
      PrefixShort(children[0].text, limit);
      FrontFits(children[1..], limit - |kept|);
      ValidConcat(kept, Front(children[1..], limit - |kept|));
    }
  }

  ghost predicate StartsWith(s: Bytes, p: Bytes)
  {
    |p| <= |s| && s[..|p|] == p
  }

  /** No text here starts with a character that fits into the gap. */
  ghost predicate NoneFits(children: seq<Block>, gap: nat)
  {
    forall i :: 0 <= i < |children| && children[i].Text? ==> Prefix(children[i].text, gap) == []
  }

  /** Behind the text that is cut, nothing fits into the gap the cut character leaves. */
  ghost predicate CutIsLast(children: seq<Block>, limit: nat)
    decreases |children|
  {
    if children == [] then true
    else if !children[0].Text? then CutIsLast(children[1..], limit)
    else
      var text := children[0].text;
      if |text| <= limit then CutIsLast(children[1..], limit - |text|)
      else
        PrefixShort(text, limit);
        NoneFits(children[1..], limit - |Prefix(text, limit)|)
  }

  lemma {:induction false} NothingKept(children: seq<Block>, gap: nat)
    ensures Front(children, gap) == [] <==> NoneFits(children, gap)
  {
    hide Prefix;
    if children != [] {
      if children[0].Text? {
        PrefixShort(children[0].text, gap);
      }
      NothingKept(children[1..], gap);
      assert children == [children[0]] + children[1..];
      if NoneFits(children, gap) && children[0].Text? {
        assert Prefix(children[0].text, gap) == [];
      }
    }
  }

  /** A cut text is followed by nothing of itself. */
  lemma CutEnds(text: Bytes, limit: nat, more: Bytes)
    requires Valid(text) && limit < |text| && Valid(more) && more != [] && |Prefix(text, limit)| + |more| <= limit
    ensures !StartsWith(text, Prefix(text, limit) + more)
  {
    hide Valid;
    PrefixShort(text, limit);
    ValidConcat(Prefix(text, limit), more);
  }

  lemma PrefixWhole(s: Bytes, n: nat)
    requires |s| <= n
    ensures Prefix(s, n) == s && Suffix(s, n) == s
  {
  }

  lemma {:induction false} AllTextValid(children: seq<Block>)
    requires AllValid(children)
    ensures Valid(AllText(children))
  {
    hide Valid;
    if children == [] {
      NothingValid([]);
    } else {
      AllTextValid(children[1..]);
      if children[0].Text? {
        ValidConcat(children[0].text, AllText(children[1..]));
      } else {
        assert [] + AllText(children[1..]) == AllText(children[1..]);
      }
    }
  }

  /** The scan keeps a prefix of the whole text exactly when nothing behind a cut fits the gap;
      then it is the longest prefix of whole characters within the limit. */
  lemma {:induction false} FrontIsPrefixIff(children: seq<Block>, limit: nat)
    requires AllValid(children)
    ensures StartsWith(AllText(children), Front(children, limit)) <==> CutIsLast(children, limit)
    ensures CutIsLast(children, limit) ==> Front(children, limit) == Prefix(AllText(children), limit)
    decreases |children|, 0
  {
    hide Valid, Prefix, AllValid;
    if children == [] {
      PrefixWhole([], limit);
    } else {
      var rest := children[1..];
      FirstAndRest(children);
      if !children[0].Text? {
        FrontIsPrefixIff(rest, limit);
        assert [] + AllText(rest) == AllText(rest);
      } else if |children[0].text| <= limit {
        FrontWithout(children[0].text, rest, limit);
      } else {
        PrefixShort(children[0].text, limit);
        FrontCut(children[0].text, rest, limit);
      }
    }
  }

  lemma FirstAndRest(children: seq<Block>)
    requires children != [] && AllValid(children)
    ensures AllValid(children[1..]) && (children[0].Text? ==> Valid(children[0].text))
  {
    hide Valid;
  }

  lemma FrontWithout(text: Bytes, rest: seq<Block>, limit: nat)
    requires Valid(text) && AllValid(rest) && |text| <= limit
    ensures var all, front := text + AllText(rest), text + Front(rest, limit - |text|);
      && (StartsWith(all, front) <==> CutIsLast(rest, limit - |text|))
      && (CutIsLast(rest, limit - |text|) ==> front == Prefix(all, limit))
      && Prefix(text, limit) == text
    decreases |rest|, 1
  {
    hide Valid, Prefix, AllValid;
    FrontIsPrefixIff(rest, limit - |text|);
    AllTextValid(rest);
    PrefixWhole(text, limit);
    var more := AllText(rest);
    StartsAfter(text, more, Front(rest, limit - |text|));
    if limit < |text| + |more| {
      PrefixInSecond(text, more, limit);
    } else {
      PrefixWhole(text + more, limit);
      PrefixWhole(more, limit - |text|);
    }
  }

  lemma StartsAfter(a: Bytes, s: Bytes, p: Bytes)
    ensures StartsWith(a + s, a + p) <==> StartsWith(s, p)
  {
    if |p| <= |s| {
      assert (a + s)[..|a + p|] == a + s[..|p|];
      if a + s[..|p|] == a + p {
        assert s[..|p|] == (a + s[..|p|])[|a|..] == (a + p)[|a|..] == p;
      }
    }
  }

  lemma FrontCut(text: Bytes, rest: seq<Block>, limit: nat)
    requires Valid(text) && AllValid(rest) && limit < |text| && |Prefix(text, limit)| <= limit
    ensures var kept := Prefix(text, limit); var gap := limit - |kept|; var all, front := text + AllText(rest), kept + Front(rest, gap);
      && (StartsWith(all, front) <==> NoneFits(rest, gap))
      && (NoneFits(rest, gap) ==> front == Prefix(all, limit))
  {
    hide Valid, Prefix, AllValid;
    var kept := Prefix(text, limit);
    var more := Front(rest, limit - |kept|);
    var all := text + AllText(rest);
    PrefixShort(text, limit);
    NothingKept(rest, limit - |kept|);
    FrontFits(rest, limit - |kept|);
    PrefixInFirst(text, AllText(rest), limit);
    if more == [] {
      assert kept + more == kept && all[..|kept|] == text[..|kept|];
    } else {
      CutEnds(text, limit, more);
      assert all[..|kept + more|] == text[..|kept + more|];
    }
  }

  /** projectedTextPrefix. */
  method TextPrefix(children: seq<Block>, limit: nat) returns (buf: Bytes)
    requires AllValid(children)
    ensures buf == Front(children, limit)
  {
    hide Valid, Prefix, AllValid, Front;
    buf := [];
    assert children[0..] == children;
    for i := 0 to |children|
      invariant |buf| <= limit
      invariant buf + Front(children[i..], limit - |buf|) == Front(children, limit)
    {
      FrontStep(children, i, limit - |buf|);
      if !children[i].Text? || |buf| >= limit {
        if children[i].Text? {
          assert buf + [] == buf;
        }
        continue;
      }
      var remaining := limit - |buf|;
      var text := children[i].text;
      if |text| > remaining {
        var cut := AlignLocalDown(text, remaining);
        text := text[..cut];
      }
      PrefixIs(children[i].text, remaining);
      Assoc(buf, text, Front(children[i + 1..], remaining - |text|));
      buf := buf + text;
    }
    assert children[|children|..] == [];
    FrontOfNone(limit - |buf|);
  }

  lemma FrontOfNone(limit: nat)
    ensures Front([], limit) == [] && Back([], limit) == []
  {
  }

  lemma PrefixIs(text: Bytes, n: nat)
    ensures Prefix(text, n) == if |text| > n then text[..AlignDown(text, n)] else text
    ensures Suffix(text, n) == if |text| > n then text[AlignUp(text, |text| - n)..] else text
  {
    hide Valid;
  }

  lemma FrontStep(children: seq<Block>, i: nat, limit: nat)
    requires i < |children|
    ensures !children[i].Text? ==> Front(children[i..], limit) == Front(children[i + 1..], limit)
    ensures children[i].Text? ==>
      var kept := Prefix(children[i].text, limit); |kept| <= limit && Front(children[i..], limit) == kept + Front(children[i + 1..], limit - |kept|)
    ensures children[i].Text? && limit == 0 ==> Front(children[i..], limit) == Front(children[i + 1..], limit)
  {
    hide Prefix;
    assert children[i..][1..] == children[i + 1..];
    if children[i].Text? {
      PrefixShort(children[i].text, limit);
      assert [] + Front(children[i + 1..], 0) == Front(children[i + 1..], 0);
    }
  }

  // ---- the back ----

  /** What the scan from the back keeps. */
  function Back(children: seq<Block>, limit: nat): Bytes
  {
    if children == [] then []
    else
      var last, rest := children[|children| - 1], children[..|children| - 1];
      if !last.Text? then Back(rest, limit)
      else
        var kept := Suffix(last.text, limit);
        SuffixShort(last.text, limit);
        Back(rest, limit - |kept|) + kept
  }

  lemma {:induction false} BackFits(children: seq<Block>, limit: nat)
    requires AllValid(children)
    ensures |Back(children, limit)| <= limit && Valid(Back(children, limit))
  {
    hide Valid, Suffix;
    if children == [] {
      NothingValid([]);
    } else {
      var last, rest := children[|children| - 1], children[..|children| - 1];
      if !last.Text? {
        BackFits(rest, limit);
      } else {
        var kept := Suffix(last.text, limit);
        SuffixShort(last.text, limit);
        BackFits(rest, limit - |kept|);
        ValidConcat(Back(rest, limit - |kept|), kept);
      }
    }
  }

  ghost predicate EndsWith(s: Bytes, p: Bytes)
  {
    |p| <= |s| && s[|s| - |p|..] == p
  }

  /** No text here ends with a character that fits into the gap. */
  ghost predicate NoEndFits(children: seq<Block>, gap: nat)
  {
    forall i :: 0 <= i < |children| && children[i].Text? ==> Suffix(children[i].text, gap) == []
  }

  ghost predicate CutIsFirst(children: seq<Block>, limit: nat)
    decreases |children|
  {
    if children == [] then true
    else
      var last, rest := children[|children| - 1], children[..|children| - 1];
      if !last.Text? then CutIsFirst(rest, limit)
      else if |last.text| <= limit then CutIsFirst(rest, limit - |last.text|)
      else
        SuffixShort(last.text, limit);
        NoEndFits(rest, limit - |Suffix(last.text, limit)|)
  }

  lemma {:induction false} NoEndKept(children: seq<Block>, gap: nat)
    ensures Back(children, gap) == [] <==> NoEndFits(children, gap)
  {
    hide Suffix;
    if children != [] {
      var last, rest := children[|children| - 1], children[..|children| - 1];
      if last.Text? {
        SuffixShort(last.text, gap);
      }
      NoEndKept(rest, gap);
      assert children == rest + [last];
      if NoEndFits(children, gap) && last.Text? {
        assert Suffix(children[|children| - 1].text, gap) == [];
      }
    }
  }

  lemma CutBegins(text: Bytes, limit: nat, more: Bytes)
    requires Valid(text) && limit < |text| && Valid(more) && more != [] && |more| + |Suffix(text, limit)| <= limit
    ensures !EndsWith(text, more + Suffix(text, limit))
  {
    hide Valid;
    SuffixShort(text, limit);
    ValidConcat(more, Suffix(text, limit));
  }

  lemma {:induction false} AllTextLast(children: seq<Block>)
    requires children != []
    ensures AllText(children) == AllText(children[..|children| - 1]) + TextOf(children[|children| - 1])
  {
    var n := |children| - 1;
    if n == 0 {
      assert children[..n] == [] == children[1..];
    } else {
      AllTextLast(children[1..]);
      assert children[1..][..n - 1] == children[..n][1..];
      Assoc(TextOf(children[0]), AllText(children[..n][1..]), TextOf(children[n]));
    }
  }

  function TextOf(b: Block): Bytes
  {
    if b.Text? then b.text else []
  }

  /** The same from the back. */
  lemma {:induction false} BackIsSuffixIff(children: seq<Block>, limit: nat)
    requires AllValid(children)
    ensures EndsWith(AllText(children), Back(children, limit)) <==> CutIsFirst(children, limit)
    ensures CutIsFirst(children, limit) ==> Back(children, limit) == Suffix(AllText(children), limit)
    decreases |children|, 0
  {
    hide Valid, Suffix, AllValid, AllText;
    if children == [] {
      NoText();
      PrefixWhole([], limit);
    } else {
      var last, rest := children[|children| - 1], children[..|children| - 1];
      LastAndRest(children);
      AllTextLast(children);
      if !last.Text? {
        BackIsSuffixIff(rest, limit);
        assert AllText(rest) + [] == AllText(rest);
      } else if |last.text| <= limit {
        BackWithout(last.text, rest, limit);
      } else {
        SuffixShort(last.text, limit);
        BackCut(last.text, rest, limit);
      }
    }
  }

  lemma NoText()
    ensures AllText([]) == []
  {
  }

  lemma LastAndRest(children: seq<Block>)
    requires children != [] && AllValid(children)
    ensures AllValid(children[..|children| - 1]) && (children[|children| - 1].Text? ==> Valid(children[|children| - 1].text))
  {
    hide Valid;
  }

  lemma BackWithout(text: Bytes, rest: seq<Block>, limit: nat)
    requires Valid(text) && AllValid(rest) && |text| <= limit
    ensures var all, back := AllText(rest) + text, Back(rest, limit - |text|) + text;
      && (EndsWith(all, back) <==> CutIsFirst(rest, limit - |text|))
      && (CutIsFirst(rest, limit - |text|) ==> back == Suffix(all, limit))
      && Suffix(text, limit) == text
    decreases |rest|, 1
  {
    hide Valid, Suffix, AllValid, AllText;
    BackIsSuffixIff(rest, limit - |text|);
    AllTextValid(rest);
    PrefixWhole(text, limit);
    var more := AllText(rest);
    EndsBefore(text, more, Back(rest, limit - |text|));
    if limit < |more| + |text| {
      SuffixInFirst(more, text, limit);
    } else {
      PrefixWhole(more + text, limit);
      PrefixWhole(more, limit - |text|);
    }
  }

  lemma EndsBefore(a: Bytes, s: Bytes, p: Bytes)
    ensures EndsWith(s + a, p + a) <==> EndsWith(s, p)
  {
    if |p| <= |s| {
      assert (s + a)[|s + a| - |p + a|..] == s[|s| - |p|..] + a;
      if s[|s| - |p|..] + a == p + a {
        assert s[|s| - |p|..] == (s[|s| - |p|..] + a)[..|p|] == (p + a)[..|p|] == p;
      }
    }
  }

  lemma BackCut(text: Bytes, rest: seq<Block>, limit: nat)
    requires Valid(text) && AllValid(rest) && limit < |text| && |Suffix(text, limit)| <= limit
    ensures var kept := Suffix(text, limit); var gap := limit - |kept|; var all, back := AllText(rest) + text, Back(rest, gap) + kept;
      && (EndsWith(all, back) <==> NoEndFits(rest, gap))
      && (NoEndFits(rest, gap) ==> back == Suffix(all, limit))
  {
    hide Valid, Suffix, AllValid, AllText;
    var kept := Suffix(text, limit);
    var more := Back(rest, limit - |kept|);
    var all := AllText(rest) + text;
    SuffixShort(text, limit);
    NoEndKept(rest, limit - |kept|);
    BackFits(rest, limit - |kept|);
    SuffixInSecond(AllText(rest), text, limit);
    if more == [] {
      assert more + kept == kept && all[|all| - |kept|..] == text[|text| - |kept|..];
    } else {
      CutBegins(text, limit, more);
      assert all[|all| - |more + kept|..] == text[|text| - |more + kept|..];
    }
  }

  /** projectedTextSuffix. */
  method TextSuffix(children: seq<Block>, limit: nat) returns (buf: Bytes)
    requires AllValid(children)
    ensures buf == Back(children, limit)
  {
    hide Valid, Suffix, AllValid, Back;
    buf := [];
    assert children[..|children|] == children;
    for i := |children| downto 0
      invariant |buf| <= limit
      invariant Back(children[..i], limit - |buf|) + buf == Back(children, limit)
    {
      if |buf| >= limit {
        BackOfNothing(children[..i + 1]);
        assert [] + buf == buf;
        return;
      }
      BackStep(children, i, limit - |buf|);
      if !children[i].Text? {
        continue;
      }
      var remaining := limit - |buf|;
      var text := children[i].text;
      if |text| > remaining {
        var cut := AlignLocalUp(text, |text| - remaining);
        text := text[cut..];
      }
      PrefixIs(children[i].text, remaining);
      Assoc(Back(children[..i], remaining - |text|), text, buf);
      buf := text + buf;
    }
    assert children[..0] == [];
    FrontOfNone(limit - |buf|);
  }

  lemma BackOfNothing(children: seq<Block>)
    ensures Back(children, 0) == []
  {
    forall i | 0 <= i < |children| && children[i].Text? ensures Suffix(children[i].text, 0) == [] {
      SuffixShort(children[i].text, 0);
    }
    NoEndKept(children, 0);
  }

  lemma BackStep(children: seq<Block>, i: nat, limit: nat)
    requires i < |children|
    ensures !children[i].Text? ==> Back(children[..i + 1], limit) == Back(children[..i], limit)
    ensures children[i].Text? ==>
      var kept := Suffix(children[i].text, limit); |kept| <= limit && Back(children[..i + 1], limit) == Back(children[..i], limit - |kept|) + kept
  {
    hide Suffix;
    assert children[..i + 1][..i] == children[..i];
    if children[i].Text? {
      SuffixShort(children[i].text, limit);
    }
  }

  // ---- one text, and two ----

  ghost predicate OneTextAt(children: seq<Block>, at: nat)
  {
    at < |children| && forall i :: 0 <= i < |children| ==> (children[i].Text? <==> i == at)
  }

  /** With one text the scans keep the longest prefix and suffix of whole characters. */
  lemma OneTextKept(children: seq<Block>, at: nat, limit: nat)
    requires AllValid(children) && OneTextAt(children, at)
    ensures Front(children, limit) == Prefix(AllText(children), limit)
    ensures Back(children, limit) == Suffix(AllText(children), limit)
  {
    hide Valid, Prefix, Suffix, AllText, Front, Back;
    FrontIsPrefixIff(children, limit);
    BackIsSuffixIff(children, limit);
    OneCutLast(children, at, limit);
    OneCutFirst(children, at, limit);
  }

  lemma {:induction false} OneCutLast(children: seq<Block>, at: nat, limit: nat)
    requires OneTextAt(children, at)
    ensures CutIsLast(children, limit)
    decreases at
  {
    hide Prefix;
    if at > 0 {
      OneCutLast(children[1..], at - 1, limit);
    } else if |children[0].text| <= limit {
      NoTextNoCut(children[1..], limit - |children[0].text|);
    }
  }

  lemma {:induction false} NoTextNoCut(children: seq<Block>, limit: nat)
    requires forall i :: 0 <= i < |children| ==> !children[i].Text?
    ensures CutIsLast(children, limit) && CutIsFirst(children, limit)
    decreases |children|
  {
    if children != [] {
      NoTextNoCut(children[1..], limit);
      NoTextNoCut(children[..|children| - 1], limit);
    }
  }

  lemma {:induction false} OneCutFirst(children: seq<Block>, at: nat, limit: nat)
    requires OneTextAt(children, at)
    ensures CutIsFirst(children, limit)
    decreases |children|
  {
    hide Suffix;
    var n := |children| - 1;
    if at < n {
      OneCutFirst(children[..n], at, limit);
    } else if |children[n].text| <= limit {
      NoTextNoCut(children[..n], limit - |children[n].text|);
    }
  }

  /** With two texts they may not: of a letter, a two-byte character, and a letter in the next
      text, two bytes keep the two letters. */
  lemma FrontSkips()
    ensures var children := [Text([97, 0xC3, 0xA9]), Text([98])];
      && AllValid(children) && Front(children, 2) == [97, 98]
      && AllText(children) == [97, 0xC3, 0xA9, 98] && !StartsWith(AllText(children), Front(children, 2))
  {
    var a, b := [97, 0xC3, 0xA9], [98];
    var children := [Text(a), Text(b)];
    assert children[1..] == [Text(b)] && [Text(b)][1..] == [];
    assert a[1..] == [0xC3, 0xA9] && a[1..][2..] == [] && b[1..] == [];
    assert Valid(a[1..]) && Valid(a) && Valid(b);
    assert a[..2] == [97, 0xC3] && a[..2][1..] == [0xC3] && RuneLen([0xC3]) == 0;
    assert !Valid(a[..2]);
    assert a[..1] == [97] && a[..1][1..] == [];
    assert AlignDown(a, 2) == 1;
    assert Prefix(a, 2) == [97] && Prefix(b, 1) == b;
    assert Front([Text(b)], 1) == b;
    assert AllText([Text(b)]) == b;
    assert AllText(children) == [97, 0xC3, 0xA9, 98];
    assert AllText(children)[..2] == [97, 0xC3];
    assert [97, 0xC3] != [97, 98] by { assert [97, 0xC3][1] != [97, 98][1]; }
  }

  // ---- the shortened body ----

  /** A decimal number. */
  function Decimal(n: nat): (r: Bytes)
    ensures AllAscii(r)
  {
    if n < 10 then [48 + n] else Decimal(n / 10) + [48 + n % 10]
  }

  const OMITTED_BYTES: Bytes := Ascii("[serpe-tool-result-omitted:v1 bytes=")
  const OMITTED_SHA: Bytes := Ascii(" sha256=")
  const OMITTED_END: Bytes := Ascii("]")

  function OmittedMarker(total: nat, sha: Digest): (r: Bytes)
    ensures AllAscii(r)
  {
    OMITTED_BYTES + Decimal(total) + OMITTED_SHA + sha + OMITTED_END
  }

  /** The number that a row of decimal digits stands for. */
  function ReadDecimal(s: Bytes): (r: Option<nat>)
  {
    if s == [] then Some(0)
    else
      var front, last := ReadDecimal(s[..|s| - 1]), s[|s| - 1];
      if front.None? || !(48 <= last <= 57) then None else Some(10 * front.value + last - 48)
  }

  lemma {:induction false} DecimalReads(n: nat)
    ensures ReadDecimal(Decimal(n)) == Some(n) && Decimal(n) != [] && (n > 0 ==> Decimal(n)[0] != 48) && (n == 0 ==> Decimal(n) == [48])
  {
    if n < 10 {
      assert [48 + n][..0] == [];
      assert ReadDecimal([]) == Some(0);
    } else {
      DecimalReads(n / 10);
      assert Decimal(n)[..|Decimal(n)| - 1] == Decimal(n / 10);
    }
  }

  /** The marker names the length of the whole text, in decimal digits without a leading zero,
      and the digest. */
  lemma OmittedNames(total: nat, sha: Digest)
    ensures exists n: Bytes ::
      && ReadDecimal(n) == Some(total) && n != [] && (n[0] == 48 ==> n == [48])
      && OmittedMarker(total, sha) == Ascii("[serpe-tool-result-omitted:v1 bytes=") + n + Ascii(" sha256=") + sha + Ascii("]")
  {
    hide ReadDecimal, Decimal, Ascii;
    DecimalReads(total);
  }

  datatype Compacted = Compacted(children: seq<Block>, used: nat) | CannotFit

  /** The texts emptied, but for the first, which becomes `preview`. */
  function Replaced(children: seq<Block>, preview: Bytes): (r: seq<Block>)
    ensures OnlyTexts(children, r)
  {
    if children == [] then []
    else if children[0].Text? then [Text(preview)] + Replaced(children[1..], [])
    else [children[0]] + Replaced(children[1..], preview)
  }

  lemma {:induction false} ReplacedText(children: seq<Block>, preview: Bytes)
    requires Valid(preview)
    ensures TextTotal(Replaced(children, preview)) == if HasText(children) then |preview| else 0
    ensures AllText(Replaced(children, preview)) == if HasText(children) then preview else []
    ensures AllValid(Replaced(children, preview))
  {
    hide Valid, TextTotal;
    if children == [] {
      NothingTotal();
    } else {
      hide AllValid, HasText;
      if children[0].Text? {
        NothingValid([]);
        ReplacedText(children[1..], []);
        Prepended(Text(preview), Replaced(children[1..], []));
        TextFirst(children);
      } else {
        ReplacedText(children[1..], preview);
        Prepended(children[0], Replaced(children[1..], preview));
        TextLater(children);
      }
    }
  }

  lemma NothingTotal()
    ensures TextTotal([]) == 0
  {
  }

  lemma Prepended(b: Block, rest: seq<Block>)
    requires AllValid(rest) && (b.Text? ==> Valid(b.text))
    ensures AllValid([b] + rest) && TextTotal([b] + rest) == (if b.Text? then |b.text| else 0) + TextTotal(rest)
  {
    hide Valid;
    assert ([b] + rest)[1..] == rest;
  }

  lemma TextFirst(children: seq<Block>)
    requires children != [] && children[0].Text?
    ensures HasText(children)
  {
  }

  lemma TextLater(children: seq<Block>)
    requires children != [] && !children[0].Text?
    ensures HasText(children) <==> HasText(children[1..])
  {
    if HasText(children) { NotFirst(children); }
    if HasText(children[1..]) {
      var i :| 0 <= i < |children[1..]| && children[1..][i].Text?;
      assert children[i + 1].Text?;
    }
  }

  /** The text of a shortened body: the front, the marker and the back, or, when not even the
      marker fits, the fixed text. */
  function Preview(sha: Bytes -> Digest, children: seq<Block>, allowance: nat): Bytes
  {
    var marker := OmittedMarker(TextTotal(children), sha(AllText(children)));
    if allowance < |marker| then OMITTED_BODY
    else
      var payload := allowance - |marker|;
      Front(children, payload / 2) + marker + Back(children, payload - payload / 2)
  }

  /** The body under an allowance: unchanged when it fits. */
  function Shorten(sha: Bytes -> Digest, children: seq<Block>, allowance: nat): seq<Block>
  {
    if TextTotal(children) <= allowance then children else Replaced(children, Preview(sha, children, allowance))
  }

  lemma PreviewFits(sha: Bytes -> Digest, children: seq<Block>, allowance: nat)
    requires AllValid(children) && allowance >= |OMITTED_BODY|
    ensures |Preview(sha, children, allowance)| <= allowance && Valid(Preview(sha, children, allowance))
  {
    hide Valid, AllValid, TextTotal, Ascii, OmittedMarker, Front, Back, AllText;
    AsciiValid(OMITTED_BODY);
    var marker := OmittedMarker(TextTotal(children), sha(AllText(children)));
    if allowance >= |marker| {
      var payload := allowance - |marker|;
      FrontFits(children, payload / 2);
      BackFits(children, payload - payload / 2);
      AsciiValid(marker);
      ValidConcat(Front(children, payload / 2), marker);
      ValidConcat(Front(children, payload / 2) + marker, Back(children, payload - payload / 2));
    }
  }

  /** A shortened body is within its allowance, has its images in place, and its text is the
      preview. */
  lemma ShortenFits(sha: Bytes -> Digest, children: seq<Block>, allowance: nat)
    requires AllValid(children) && (TextTotal(children) <= allowance || allowance >= |OMITTED_BODY|)
    ensures var body := Shorten(sha, children, allowance);
      && OnlyTexts(children, body) && AllValid(body) && TextTotal(body) <= allowance
      && (TextTotal(children) > allowance ==> AllText(body) == Preview(sha, children, allowance))
  {
    hide AllText, TextTotal, Preview, AllValid, Replaced;
    if TextTotal(children) > allowance {
      PreviewFits(sha, children, allowance);
      SomeText(children);
      ReplacedText(children, Preview(sha, children, allowance));
      TotalIsLength(Shorten(sha, children, allowance));
    }
  }

  lemma TotalIsLength(blocks: seq<Block>)
    ensures TextTotal(blocks) == |AllText(blocks)|
  {
  }

  /** compactProjectedText: fails only on an allowance below the shortest body. */
  method CompactText(sha: Bytes -> Digest, children: seq<Block>, allowance: nat) returns (r: Compacted)
    requires AllValid(children)
    ensures r.CannotFit? <==> allowance < TextTotal(children) && allowance < |OMITTED_BODY|
    ensures r.Compacted? ==> r.children == Shorten(sha, children, allowance) && r.used == TextTotal(r.children)
    ensures r.Compacted? ==> r.used <= allowance && OnlyTexts(children, r.children) && AllValid(r.children)
  {
    hide Valid, TextTotal, HasText, Ascii, Front, Back, Replaced, AllText, AllValid, OmittedMarker;
    var total := TextTotal(children);
    if !HasText(children) {
      NoTextNoBytes(children);
      return Compacted(children, 0);
    }
    if total <= allowance {
      return Compacted(children, total);
    }
    if allowance < |OMITTED_BODY| {
      return CannotFit;
    }
    ShortenFits(sha, children, allowance);
    var marker := OmittedMarker(total, sha(AllText(children)));
    var preview := OMITTED_BODY;
    if allowance >= |marker| {
      var payload := allowance - |marker|;
      var head := payload / 2;
      var front := TextPrefix(children, head);
      var back := TextSuffix(children, payload - head);
      preview := front + marker + back;
    }
    PreviewFits(sha, children, allowance);
    ReplacedText(children, preview);
    r := Compacted(Replaced(children, preview), |preview|);
  }

  lemma NoTextNoBytes(children: seq<Block>)
    requires !HasText(children)
    ensures TextTotal(children) == 0
  {
    if TextTotal(children) > 0 {
      SomeText(children);
    }
  }
}
