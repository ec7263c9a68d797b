/** UTF-8 as section 4 of RFC 3629 defines it, with the decoding functions of Go's
    unicode/utf8 that the tool output code relies on. */
module Utf8 {

  type byte = x: int | 0 <= x < 256

  type Bytes = seq<byte>

  lemma Assoc(a: Bytes, b: Bytes, c: Bytes)
    ensures a + (b + c) == (a + b) + c
  {
  }

  // ---- one encoded character ----

  /** The length a first byte announces; 0 for a byte that cannot come first. */
  function Announced(b: byte): (n: nat)
    ensures n <= 4
  {
    if b < 0x80 then 1
    else if b < 0xC2 then 0
    else if b < 0xE0 then 2
    else if b < 0xF0 then 3
    else if b < 0xF5 then 4
    else 0
  }

  predicate Continues(b: byte)
  {
    0x80 <= b < 0xC0
  }

  /** The second byte, narrowed against overlong forms, surrogates and values past U+10FFFF. */
  predicate SecondFits(first: byte, second: byte)
  {
    Continues(second)
    && (first == 0xE0 ==> 0xA0 <= second)
    && (first == 0xED ==> second < 0xA0)
    && (first == 0xF0 ==> 0x90 <= second)
    && (first == 0xF4 ==> second < 0x90)
  }

  /** The length of the character `s` starts with; 0 when it starts with none. */
  function RuneLen(s: Bytes): (n: nat)
    ensures n <= |s| && n <= 4
  {
    if s == [] then 0
    else
      var n := Announced(s[0]);
      if n == 0 || |s| < n then 0
      else if n >= 2 && !SecondFits(s[0], s[1]) then 0
      else if n >= 3 && !Continues(s[2]) then 0
      else if n == 4 && !Continues(s[3]) then 0
      else n
  }

  /** utf8.FullRune: what follows cannot change how the first character decodes. */
  predicate FullRune(s: Bytes)
  {
    s != []
    && var n := Announced(s[0]);
       || |s| >= n
       || (|s| > 1 && !SecondFits(s[0], s[1]))
       || (|s| > 2 && !Continues(s[2]))
  }

  lemma FullRuneIsDecided(s: Bytes, t: Bytes)
    requires FullRune(s)
    ensures RuneLen(s + t) == RuneLen(s)
  {
    assert forall i :: 0 <= i < |s| ==> (s + t)[i] == s[i];
  }

  // ---- valid text ----

  predicate Valid(s: Bytes)
  {
    s == [] || (RuneLen(s) > 0 && Valid(s[RuneLen(s)..]))
  }

  lemma {:induction false} ValidConcat(a: Bytes, b: Bytes)
    requires Valid(a) && Valid(b)
    ensures Valid(a + b)
  {
    if a == [] {
      assert a + b == b;
    } else {
      var n := RuneLen(a);
      RuneOfPrefix(a, b);
      assert (a + b)[n..] == a[n..] + b;
      ValidConcat(a[n..], b);
    }
  }

  lemma RuneOfPrefix(a: Bytes, b: Bytes)
    requires RuneLen(a) > 0
    ensures RuneLen(a + b) == RuneLen(a)
  {
    assert forall i :: 0 <= i < |a| ==> (a + b)[i] == a[i];
  }

  /** What is left after a valid prefix of valid text is valid. */
  lemma {:induction false} ValidRest(a: Bytes, b: Bytes)
    requires Valid(a) && Valid(a + b)
    ensures Valid(b)
  {
    if a == [] {
      assert a + b == b;
    } else {
      var n := RuneLen(a);
      RuneOfPrefix(a, b);
      assert (a + b)[n..] == a[n..] + b;
      ValidRest(a[n..], b);
    }
  }

  /** No character starts inside another: cutting there leaves invalid text behind. */
  lemma InsideRune(s: Bytes, n: nat)
    requires 0 < n < RuneLen(s)
    ensures Continues(s[n]) && !Valid(s[n..])
  {
  }

  /** A cut of valid text is clean on one side exactly when it is clean on the other. */
  lemma {:induction false} CutClean(s: Bytes, n: nat)
    requires Valid(s) && n <= |s|
    ensures Valid(s[..n]) <==> Valid(s[n..])
  {
    if Valid(s[..n]) {
      assert s == s[..n] + s[n..];
      ValidRest(s[..n], s[n..]);
    } else if Valid(s[n..]) {
      CleanBefore(s, n);
    }
  }

  lemma {:induction false} CleanBefore(s: Bytes, n: nat)
    requires Valid(s) && n <= |s| && Valid(s[n..])
    ensures Valid(s[..n])
  {
    hide *;
    if n == 0 {
      NothingValid(s[..0]);
    } else {
      var r := RuneLen(s);
      ValidStep(s);
      if n < r {
        InsideRune(s, n);
      } else {
        CutTwice(s, r, n);
        CleanBefore(s[r..], n - r);
        OneRune(s);
        ValidConcat(s[..r], s[r..][..n - r]);
      }
    }
  }

  lemma NothingValid(s: Bytes)
    requires s == []
    ensures Valid(s)
  {
  }

  lemma CutTwice(s: Bytes, r: nat, n: nat)
    requires r <= n <= |s|
    ensures s[r..][n - r..] == s[n..] && s[..n] == s[..r] + s[r..][..n - r]
  {
  }

  lemma ValidStep(s: Bytes)
    requires Valid(s) && s != []
    ensures RuneLen(s) > 0 && Valid(s[RuneLen(s)..])
  {
  }

  lemma OneRune(s: Bytes)
    requires RuneLen(s) > 0
    ensures Valid(s[..RuneLen(s)])
  {
    var r := s[..RuneLen(s)];
    assert RuneLen(r) == |r| && r[|r|..] == [];
  }

  // ---- aligned prefixes and suffixes ----

  /** The longest prefix of at most `n` bytes that is valid by itself. */
  function AlignDown(s: Bytes, n: nat): (r: nat)
    requires n <= |s|
    ensures r <= n && Valid(s[..r]) && forall k :: r < k <= n ==> !Valid(s[..k])
  {
    if n == 0 || Valid(s[..n]) then n else AlignDown(s, n - 1)
  }

  /** Where the longest suffix starting at or after `n` that is valid by itself begins. */
  function AlignUp(s: Bytes, n: nat): (r: nat)
    requires n <= |s|
    ensures n <= r <= |s| && Valid(s[r..]) && forall k :: n <= k < r ==> !Valid(s[k..])
    decreases |s| - n
  {
    if n == |s| || Valid(s[n..]) then n else AlignUp(s, n + 1)
  }

  function Prefix(s: Bytes, n: nat): Bytes
  {
    if n >= |s| then s else s[..AlignDown(s, n)]
  }

  function Suffix(s: Bytes, n: nat): Bytes
  {
    if n >= |s| then s else s[AlignUp(s, |s| - n)..]
  }

  /** A cut of the joined text is clean exactly where it is clean in the part it falls in. */
  lemma CutInFirst(a: Bytes, b: Bytes, k: nat)
    requires k <= |a|
    ensures (a + b)[..k] == a[..k] && (a + b)[k..] == a[k..] + b
  {
  }

  lemma CutInSecond(a: Bytes, b: Bytes, k: nat)
    requires |a| <= k <= |a| + |b|
    ensures (a + b)[..k] == a + b[..k - |a|] && (a + b)[k..] == b[k - |a|..]
  {
  }

  /** The aligned prefix of joined text, when the limit lies in the first part. */
  lemma PrefixInFirst(a: Bytes, b: Bytes, n: nat)
    requires Valid(a) && n <= |a| && n < |a| + |b|
    ensures Prefix(a + b, n) == Prefix(a, n)
  {
    var r := AlignDown(a + b, n);
    CutInFirst(a, b, r);
    assert a[..|a|] == a;
    if n < |a| {
      AlignDownUnique(a, n, r, a + b);
    } else {
      CutInFirst(a, b, n);
    }
  }

  lemma AlignDownUnique(a: Bytes, n: nat, r: nat, s: Bytes)
    requires n <= |a| <= |s| && s[..|a|] == a && r == AlignDown(s, n)
    ensures AlignDown(a, n) == r
  {
    forall k | 0 <= k <= n ensures s[..k] == a[..k] {
      assert s[..k] == s[..|a|][..k];
    }
  }

  /** The aligned prefix of joined text, when the limit lies in the second part. */
  lemma PrefixInSecond(a: Bytes, b: Bytes, n: nat)
    requires Valid(a) && Valid(b) && |a| <= n < |a| + |b|
    ensures Prefix(a + b, n) == a + Prefix(b, n - |a|)
  {
    var r, q := AlignDown(a + b, n), AlignDown(b, n - |a|);
    CutInSecond(a, b, |a| + q);
    ValidConcat(a, b[..q]);
    assert r >= |a| + q;
    CutInSecond(a, b, r);
    ValidRest(a, b[..r - |a|]);
  }

  lemma {:induction false} AlignUpShift(a: Bytes, b: Bytes, k: nat)
    requires k <= |b|
    ensures AlignUp(a + b, |a| + k) == |a| + AlignUp(b, k)
    decreases |b| - k
  {
    hide Valid;
    CutInSecond(a, b, |a| + k);
    if k < |b| {
      AlignUpShift(a, b, k + 1);
    }
  }

  /** The aligned suffix of joined text, when it starts in the second part. */
  lemma SuffixInSecond(a: Bytes, b: Bytes, n: nat)
    requires n <= |b| && n < |a| + |b| && Valid(b)
    ensures Suffix(a + b, n) == Suffix(b, n)
  {
    hide *;
    var q := SuffixStart(b, n);
    AlignUpShift(a, b, |b| - n);
    SuffixAt(a + b, n, |a| + q);
    CutInSecond(a, b, |a| + q);
  }

  lemma SuffixAt(s: Bytes, n: nat, q: nat)
    requires n < |s| && q == AlignUp(s, |s| - n)
    ensures q <= |s| && Suffix(s, n) == s[q..]
  {
    hide AlignUp;
  }

  lemma SuffixStart(b: Bytes, n: nat) returns (q: nat)
    requires n <= |b| && Valid(b)
    ensures q <= |b| && q == AlignUp(b, |b| - n) && Suffix(b, n) == b[q..]
  {
    hide Valid;
    q := AlignUp(b, |b| - n);
    if n == |b| {
      assert b[0..] == b;
    }
  }

  /** The aligned suffix of joined text, when it starts in the first part. */
  lemma SuffixInFirst(a: Bytes, b: Bytes, n: nat)
    requires Valid(a) && Valid(b) && |b| <= n < |a| + |b|
    ensures Suffix(a + b, n) == Suffix(a, n - |b|) + b
  {
    hide Valid;
    var s := a + b;
    ValidConcat(a, b);
    var r, q := AlignUp(s, |s| - n), AlignUp(a, |s| - n);
    CutInFirst(a, b, q);
    ValidConcat(a[q..], b);
    assert r <= q;
    CutInFirst(a, b, r);
    CutClean(s, r);
    CutClean(a, r);
    assert r == q;
    SuffixAt(s, n, r);
    if n > |b| {
      SuffixAt(a, n - |b|, q);
    }
  }

  /** Narrowing an aligned suffix is the narrower aligned suffix. */
  lemma SuffixOfSuffix(s: Bytes, n: nat, k: nat)
    requires Valid(s) && k <= n
    ensures Suffix(Suffix(s, n), k) == Suffix(s, k)
  {
    var t := Suffix(s, n);
    if n < |s| {
      var q := AlignUp(s, |s| - n);
      assert t == s[q..];
      CutClean(s, q);
      var head := s[..q];
      assert s == head + t;
      if k <= |t| {
        SuffixInSecond(head, t, k);
      } else {
        var r := AlignUp(s, |s| - k);
        assert |s| - n <= |s| - k < q;
        assert r == q;
      }
    }
  }
}
