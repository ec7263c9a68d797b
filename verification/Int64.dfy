/** Overflow-checked signed 64-bit arithmetic (core/tools/limits.go:256-279). */
module Int64 {

  const MAX_INT64: int := 0x7FFF_FFFF_FFFF_FFFF
  const MIN_INT64: int := -0x8000_0000_0000_0000

  type int64 = x: int | MIN_INT64 <= x <= MAX_INT64

  /** A limit, which configuration keeps from being negative. */
  type limit64 = x: int | 0 <= x <= MAX_INT64

  datatype Checked = Exact(value: int64) | Overflow

  /** add64: exact whenever the sum fits, for any signs. */
  function Add64(a: int64, b: int64): (r: Checked)
    ensures r == if MIN_INT64 <= a + b <= MAX_INT64 then Exact(a + b) else Overflow
  {
    if b > 0 && a > MAX_INT64 - b then Overflow
    else if b < 0 && a < MIN_INT64 - b then Overflow
    else Exact(a + b)
  }

  /** What 64 bits keep of a number, in two's complement. */
  function Wrap64(x: int): (r: int64)
    ensures MIN_INT64 <= x <= MAX_INT64 ==> r == x
    ensures (x - r) % 0x1_0000_0000_0000_0000 == 0
  {
    (x - MIN_INT64) % 0x1_0000_0000_0000_0000 + MIN_INT64
  }

  /** mul64: exact or refused for operands that are not negative. Of two negative operands only
      the least number is refused, and of mixed signs nothing is, so a product that leaves
      64 bits wraps there. */
  function Mul64(a: int64, b: int64): (r: Checked)
    ensures a >= 0 && b >= 0 ==> r == if a * b <= MAX_INT64 then Exact(a * b) else Overflow
    ensures r.Overflow? <==> (a > 0 && b > 0 && a * b > MAX_INT64) || (a < 0 && b < 0 && (a == MIN_INT64 || b == MIN_INT64))
    ensures r.Exact? ==> r.value == Wrap64(a * b)
  {
    if a == 0 || b == 0 then Exact(0)
    else if a > 0 && b > 0 then
      assert a > MAX_INT64 / b <==> a * b > MAX_INT64 by { Division(a, b, MAX_INT64); }
      assert a * b >= 0;
      if a > MAX_INT64 / b then Overflow else Exact(a * b)
    else if a < 0 && b < 0 && (a == MIN_INT64 || b == MIN_INT64) then Overflow
    else Exact(Wrap64(a * b))
  }

  lemma Division(a: int, b: int, m: int)
    requires a > 0 && b > 0 && m >= 0
    ensures a > m / b <==> a * b > m
  {
    var q := m / b;
    assert m == q * b + m % b;
    if a > q {
      Times(q + 1, a, b);
      assert (q + 1) * b == q * b + b;
    } else {
      Times(a, q, b);
    }
  }

  lemma Times(a: int, c: int, b: int)
    requires a <= c && b > 0
    ensures a * b <= c * b
  {
  }
}
