/** The numbers and the spaces of JSON, said in the form of sections 2 and 6 of RFC 8259
    (internal/jsonvalue/parse.go:400-484). */
module JsonNumbers {
  import opened Utf8
  import opened Wrappers
  import opened Frame
  import opened Json
  import opened JsonRoundTrip

  const TEN: Bytes := Ascii("0123456789")

  predicate AllDigits(s: Bytes)
  {
    s != [] && forall i :: 0 <= i < |s| ==> s[i] in TEN
  }

  predicate IsSign(s: Bytes)
  {
    s == [] || s == Ascii("-")
  }

  /** A zero, or digits that do not start with one. */
  predicate IsInt(s: Bytes)
  {
    s == Ascii("0") || (AllDigits(s) && s[0] != Ascii("0")[0])
  }

  predicate IsFrac(s: Bytes)
  {
    s == [] || (s[0] in Ascii(".") && AllDigits(s[1..]))
  }

  predicate IsExp(s: Bytes)
  {
    s == [] || (s[0] in Ascii("eE") && (AllDigits(s[1..]) || (|s| > 1 && s[1] in Ascii("+-") && AllDigits(s[2..]))))
  }

  ghost predicate IsNumber(l: Bytes)
  {
    exists a, i, f, e :: IsSign(a) && IsInt(i) && IsFrac(f) && IsExp(e) && l == a + i + f + e
  }

  lemma TenDigits(b: byte)
    ensures b in TEN <==> Digit(b)
  {
    assert TEN == [48, 49, 50, 51, 52, 53, 54, 55, 56, 57];
  }

  lemma Marks()
    ensures Ascii("0") == [48] && Ascii("-") == [45] && Ascii(".") == [46] && Ascii("eE") == [101, 69] && Ascii("+-") == [43, 45]
  {
  }

  // ---- digits ----

  lemma {:induction false} DigitsAll(s: Bytes)
    requires forall i :: 0 <= i < |s| ==> s[i] in TEN
    ensures Digits(s) == |s|
  {
    hide TEN;
    if s != [] {
      TenDigits(s[0]);
      DigitsAll(s[1..]);
    }
  }

  lemma {:induction false} DigitsOnly(s: Bytes)
    ensures forall i :: 0 <= i < Digits(s) ==> s[i] in TEN
  {
    hide TEN;
    if s != [] && Digit(s[0]) {
      TenDigits(s[0]);
      DigitsOnly(s[1..]);
      assert forall i :: 1 <= i < Digits(s) ==> s[i] == s[1..][i - 1];
    }
  }

  lemma DigitsTaken(s: Bytes, k: nat)
    requires 0 < k == Digits(s)
    ensures AllDigits(s[..k])
  {
    DigitsOnly(s);
  }

  // ---- from the parts to the length ----

  lemma IntThen(i: Bytes, rest: Bytes)
    requires IsInt(i) && (rest == [] || !Digit(rest[0]))
    ensures IntLen(i + rest) == Some(|i|)
    ensures i != [] && Digit(i[0])
  {
    hide TEN, Ascii;
    Marks();
    TenDigits(i[0]);
    TenDigits(48);
    DigitsAll(i);
    DigitsAppend(i, rest);
  }

  lemma FracThen(f: Bytes, rest: Bytes)
    requires IsFrac(f) && (rest == [] || rest[0] in [101, 69])
    ensures FracLen(f + rest) == Some(|f|)
    ensures f + rest == [] || !Digit((f + rest)[0])
  {
    hide TEN, Ascii;
    Marks();
    if f == [] {
      assert f + rest == rest;
    } else {
      assert (f + rest)[1..] == f[1..] + rest;
      DigitsAll(f[1..]);
      DigitsAppend(f[1..], rest);
    }
  }

  lemma ExpAll(e: Bytes)
    requires IsExp(e)
    ensures ExpLen(e) == Some(|e|) && (e == [] || e[0] in [101, 69])
  {
    hide TEN, Ascii;
    Marks();
    if e != [] {
      TenDigits(e[1]);
      DigitsAll(if AllDigits(e[1..]) then e[1..] else e[2..]);
    }
  }

  lemma Slices(a: Bytes, i: Bytes, f: Bytes, e: Bytes)
    ensures var l := a + i + f + e; l[|a|..] == i + (f + e) && l[|a| + |i|..] == f + e && l[|a| + |i| + |f|..] == e
  {
  }

  lemma SignTaken(a: Bytes, i: Bytes, f: Bytes, e: Bytes)
    requires IsSign(a) && i != [] && Digit(i[0])
    ensures SignLen(a + i + f + e) == |a|
  {
    hide Ascii;
    Marks();
    assert (a + i + f + e)[0] == if a == [] then i[0] else a[0];
  }

  lemma PartsMakeNumber(a: Bytes, i: Bytes, f: Bytes, e: Bytes)
    requires IsSign(a) && IsInt(i) && IsFrac(f) && IsExp(e)
    ensures NumberLen(a + i + f + e) == Some(|a + i + f + e|)
  {
    hide IntLen, FracLen, ExpLen, IsInt, IsFrac, IsExp, IsSign, SignLen, Digit;
    ExpAll(e);
    FracThen(f, e);
    IntThen(i, f + e);
    SignTaken(a, i, f, e);
    Slices(a, i, f, e);
  }

  // ---- from the length to the parts ----

  lemma IntTaken(s: Bytes, k: nat)
    requires IntLen(s) == Some(k)
    ensures IsInt(s[..k])
  {
    Marks();
    DigitsTaken(s, Digits(s));
  }

  lemma FracTaken(s: Bytes, k: nat)
    requires FracLen(s) == Some(k)
    ensures IsFrac(s[..k])
  {
    hide TEN, AllDigits;
    Marks();
    if k > 0 {
      DigitsTaken(s[1..], k - 1);
      assert s[..k][1..] == s[1..][..k - 1];
    }
  }

  lemma ExpTaken(s: Bytes)
    requires ExpLen(s) == Some(|s|)
    ensures IsExp(s)
  {
    hide TEN, AllDigits;
    Marks();
    if s != [] {
      var sign := if |s| > 1 && (s[1] == 43 || s[1] == 45) then 1 else 0;
      DigitsTaken(s[1 + sign..], |s| - 1 - sign);
      assert s[1 + sign..][..|s| - 1 - sign] == s[1 + sign..];
    }
  }

  lemma NumberHasParts(l: Bytes)
    requires NumberLen(l) == Some(|l|)
    ensures IsNumber(l)
  {
    hide IntLen, FracLen, ExpLen, IsInt, IsFrac, IsExp, Ascii;
    Marks();
    var n := SignLen(l);
    var i := IntLen(l[n..]).value;
    var f := FracLen(l[n + i..]).value;
    IntTaken(l[n..], i);
    FracTaken(l[n + i..], f);
    ExpTaken(l[n + i + f..]);
    assert IsSign(l[..n]) by { assert n > 0 ==> l[..1] == [45]; }
    assert l == l[..n] + l[n..][..i] + l[n + i..][..f] + l[n + i + f..];
  }

  /** A text is read as one number in full exactly when it is a number of RFC 8259: a sign or
      none, digits without a leading zero, and then perhaps a fraction and an exponent. */
  lemma NumbersExactly(l: Bytes)
    ensures NumberLen(l) == Some(|l|) <==> IsNumber(l)
  {
    hide NumberLen, IsNumber, IsSign, IsInt, IsFrac, IsExp;
    if NumberLen(l) == Some(|l|) {
      NumberHasParts(l);
    }
    if IsNumber(l) {
      NumberFromParts(l);
    }
  }

  lemma NumberFromParts(l: Bytes)
    requires IsNumber(l)
    ensures NumberLen(l) == Some(|l|)
  {
    hide NumberLen, IsSign, IsInt, IsFrac, IsExp;
    var a, i, f, e :| IsSign(a) && IsInt(i) && IsFrac(f) && IsExp(e) && l == a + i + f + e;
    PartsMakeNumber(a, i, f, e);
  }

  // ---- spaces ----

  const SPACES: Bytes := Ascii(" \t\n\r")

  /** What is skipped are spaces, tabs, line feeds and returns, all of them and nothing else. */
  lemma {:induction false} SkipsExactly(spaces: Bytes, s: Bytes)
    requires forall i :: 0 <= i < |spaces| ==> spaces[i] in SPACES
    requires s == [] || s[0] !in SPACES
    ensures SkipSpace(spaces + s) == s
  {
    assert SPACES == [32, 9, 10, 13];
    if spaces == [] {
      assert spaces + s == s;
    } else {
      SkipsExactly(spaces[1..], s);
      assert (spaces + s)[1..] == spaces[1..] + s;
    }
  }
}
