// Truncating division, as BigInt does it, and the few facts about products
// and quotients that the amounts, times and operation ids rest on.
module Arithmetic {

  // Division that truncates toward zero.
  function Trunc(x: int, d: int): int
    requires d > 0
  {
    if x >= 0 then x / d else -(-x / d)
  }

  lemma ProductSign(a: int, b: int)
    requires a >= 0 && b >= 0
    ensures a * b >= 0 && (a > 0 && b > 0 ==> a * b > 0)
  {}

  lemma MulLe(a: int, b: int, c: int)
    requires a >= 0 && b <= c
    ensures a * b <= a * c
  {}

  lemma MulCancel(d: int, a: int, b: int)
    requires d > 0 && d * a < d * b
    ensures a < b
  {
    if b <= a {
      MulLe(d, b, a);
    }
  }

  lemma DivBounds(x: int, d: int)
    requires d > 0
    ensures d * (x / d) <= x < d * (x / d) + d == d * (x / d + 1)
  {
    assert d * (x / d) + x % d == x;
    assert d * (x / d + 1) == d * (x / d) + d;
  }

  lemma DivMonotone(x: int, y: int, d: int)
    requires d > 0 && x <= y
    ensures x / d <= y / d
  {
    DivBounds(x, d);
    DivBounds(y, d);
    MulCancel(d, x / d, y / d + 1);
  }

  lemma ZeroQuotient(d: int)
    requires d > 0
    ensures 0 / d == 0
  {}

  lemma TruncMonotone(x: int, y: int, d: int)
    requires d > 0 && x <= y
    ensures Trunc(x, d) <= Trunc(y, d)
  {
    if x >= 0 {
      DivMonotone(x, y, d);
    } else if y < 0 {
      DivMonotone(-y, -x, d);
    } else {
      DivMonotone(0, y, d);
      DivMonotone(0, -x, d);
      ZeroQuotient(d);
    }
  }

  lemma TruncBounds(x: int, d: int)
    requires x >= 0 && d > 0
    ensures Trunc(x, d) >= 0
    ensures d * Trunc(x, d) <= x < d * Trunc(x, d) + d
  {
    assert d * (x / d) + x % d == x;
  }
}
