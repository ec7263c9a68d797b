/** The bounded view a HeadTail collector keeps of a text: all of it while it fits, and from
    then on its longest aligned head of half the budget and its longest aligned tail of the
    rest. The lemmas say how that view grows with the text (core/tools/collector.go:227-281). */
module Window {
  import opened Utf8

  function HeadLen(text: Bytes, budget: nat): nat
  {
    if |text| <= budget then |text| else |Prefix(text, budget / 2)|
  }

  function Tail(text: Bytes, budget: nat): Bytes
  {
    if |text| <= budget then [] else Suffix(text, budget - budget / 2)
  }

  function Kept(text: Bytes, budget: nat): Bytes
  {
    if |text| <= budget then text else Prefix(text, budget / 2) + Tail(text, budget)
  }

  /** The view never exceeds its budget, is valid text, and is a head and a tail of the text. */
  lemma KeptIsBounded(text: Bytes, budget: nat)
    requires Valid(text)
    ensures |Kept(text, budget)| <= budget && Valid(Kept(text, budget))
    ensures HeadLen(text, budget) <= |Kept(text, budget)|
    ensures var h := HeadLen(text, budget); var k := Kept(text, budget);
      |k| <= |text| && k[..h] == text[..h] && k[h..] == text[|text| - (|k| - h)..]
  {
    hide *;
    if |text| <= budget {
      KeptWhole(text, budget);
    } else {
      var h := AlignDown(text, budget / 2);
      var q := AlignUp(text, |text| - (budget - budget / 2));
      KeptParts(text, budget);
      ValidConcat(text[..h], text[q..]);
    }
  }

  lemma KeptWhole(text: Bytes, budget: nat)
    requires |text| <= budget
    ensures Kept(text, budget) == text && HeadLen(text, budget) == |text|
  {
  }

  lemma KeptParts(text: Bytes, budget: nat)
    requires |text| > budget
    ensures Kept(text, budget) == text[..AlignDown(text, budget / 2)] + text[AlignUp(text, |text| - (budget - budget / 2))..]
    ensures HeadLen(text, budget) == AlignDown(text, budget / 2)
  {
    hide AlignDown, AlignUp;
  }

  /** The aligned head is fixed by the time the budget is exceeded. */
  lemma HeadSettles(a: Bytes, b: Bytes, budget: nat)
    requires Valid(a) && Valid(b) && |a| + |b| > budget
    ensures Prefix(a + b, budget / 2) ==
      if |a| >= budget / 2 then Prefix(a, budget / 2) else a + Prefix(b, budget / 2 - |a|)
  {
    var n := budget / 2;
    if |a| >= n && n < |a| + |b| {
      PrefixInFirst(a, b, n);
    } else if |a| < n {
      PrefixInSecond(a, b, n);
    }
  }

  /** The aligned tail of the text so far is all that is needed to know the next one. */
  lemma TailSlides(a: Bytes, b: Bytes, n: nat, kept: Bytes)
    requires Valid(a) && Valid(b) && |a| + |b| > n
    requires kept == Suffix(a, n)
    ensures Suffix(a + b, n) == if |b| >= n then Suffix(b, n) else Suffix(kept, n - |b|) + b
  {
    hide Suffix, Valid;
    if |b| >= n {
      SuffixInSecond(a, b, n);
    } else {
      SuffixInFirst(a, b, n);
      SuffixOfSuffix(a, n, n - |b|);
    }
  }

  lemma SplitKept(text: Bytes, budget: nat)
    requires |text| > budget
    ensures HeadLen(text, budget) <= |Kept(text, budget)|
    ensures Kept(text, budget)[..HeadLen(text, budget)] == Prefix(text, budget / 2)
    ensures Kept(text, budget)[HeadLen(text, budget)..] == Suffix(text, budget - budget / 2)
  {
    hide Prefix, Suffix;
  }
}
